/** The record store the server actions run against: venues, events and media
    metadata keyed by opaque ids, plus the blob store that holds uploaded
    files. The store enforces what the relational schema enforces: ids are
    fresh, a venue's ownerEmail is unique, and every event's venueId names an
    existing venue (deleting a venue cascades to its events). */
module Store {
  import opened Common
  import opened DateTime

  type Id = string

  /** The id handed out with logical creation time `n`. Ids issued at different
      times differ (their lengths differ), which is all the model needs of them. */
  function IdAt(n: nat): (id: Id)
    ensures |id| == n + 1
  {
    Repeat('c', n + 1)
  }

  /** A venue row. `kind` is the schema's `type` column. */
  datatype Venue = Venue(id: Id, name: string, location: string, kind: string,
                         ownerEmail: string, password: string, created: nat)

  /** An event row. */
  datatype Event = Event(id: Id, title: string, description: string, date: Instant,
                         category: string, bookingUrl: Option<string>,
                         groupId: Option<string>, recurrence: Option<string>,
                         venueId: Id, created: nat)

  /** A media row. `kind` is the schema's `type` column. */
  datatype Media = Media(id: Id, url: string, filename: string, mimeType: string,
                         size: nat, kind: string, labelText: Option<string>, created: nat)

  /** Every stored venue sits under its own id, issued before `clock`. */
  ghost predicate VenueKeys(venues: map<Id, Venue>, clock: nat) {
    forall id :: id in venues ==>
      venues[id].id == id && venues[id].created < clock && id == IdAt(venues[id].created)
  }

  ghost predicate EventKeys(events: map<Id, Event>, clock: nat) {
    forall id :: id in events ==>
      events[id].id == id && events[id].created < clock && id == IdAt(events[id].created)
  }

  ghost predicate MediaKeys(media: map<Id, Media>, clock: nat) {
    forall id :: id in media ==>
      media[id].id == id && media[id].created < clock && id == IdAt(media[id].created)
  }

  /** The unique index on Venue.ownerEmail. */
  predicate UniqueOwnerEmails(venues: map<Id, Venue>) {
    forall a, b :: a in venues && b in venues && venues[a].ownerEmail == venues[b].ownerEmail ==> a == b
  }

  /** The foreign key Event.venueId -> Venue.id. */
  ghost predicate EventsHaveVenues(venues: map<Id, Venue>, events: map<Id, Event>) {
    forall id :: id in events ==> events[id].venueId in venues
  }

  /** Some venue holds this owner email. */
  predicate EmailTaken(venues: map<Id, Venue>, email: string) {
    exists id :: id in venues && venues[id].ownerEmail == email
  }

  /** `prisma.venue.findUnique({ where: { ownerEmail } })`: the one venue with
      that owner email, if any. */
  function VenueByEmail(venues: map<Id, Venue>, email: string): (r: Option<Id>)
    requires UniqueOwnerEmails(venues)
    ensures r.Some? <==> EmailTaken(venues, email)
    ensures r.Some? ==> r.value in venues && venues[r.value].ownerEmail == email
  {
    if EmailTaken(venues, email) then
      var id :| id in venues && venues[id].ownerEmail == email;
      Some(id)
    else None
  }

  /** `id` is the earliest-created venue with this exact name: the row
      `findFirst({ where: { name } })` returns in insertion order. */
  ghost predicate IsFirstNamed(venues: map<Id, Venue>, name: string, id: Id) {
    && id in venues
    && venues[id].name == name
    && forall o :: o in venues && venues[o].name == name ==> venues[id].created <= venues[o].created
  }

  predicate HasVenueNamed(venues: map<Id, Venue>, name: string) {
    exists id :: id in venues && venues[id].name == name
  }

  class RecordStore {
    var venues: map<Id, Venue>
    var events: map<Id, Event>
    var media: map<Id, Media>
    /** Urls of the files held by the blob store. */
    var blobs: set<string>
    /** The logical clock: the creation time of the next record. */
    var clock: nat

    ghost predicate Valid()
      reads this
    {
      && VenueKeys(venues, clock)
      && EventKeys(events, clock)
      && MediaKeys(media, clock)
      && UniqueOwnerEmails(venues)
      && EventsHaveVenues(venues, events)
    }

    constructor ()
      ensures Valid()
      ensures venues == map[] && events == map[] && media == map[] && blobs == {}
    {
      venues, events, media, blobs, clock := map[], map[], map[], {}, 0;
    }

    /** Distinct venues were created at distinct times. */
    lemma VenueStampsDistinct(a: Id, b: Id)
      requires Valid() && a in venues && b in venues && a != b
      ensures venues[a].created != venues[b].created
    {
    }

    /** The fresh-id oracle: an id no table holds yet, with its creation time. */
    method NextId() returns (id: Id, stamp: nat)
      requires Valid()
      modifies this`clock
      ensures Valid()
      ensures stamp == old(clock) && clock == old(clock) + 1 && id == IdAt(stamp)
      ensures id !in venues && id !in events && id !in media
    {
      stamp := clock;
      id := IdAt(stamp);
      clock := clock + 1;
    }

    /** `prisma.venue.findFirst({ where: { name } })`: the earliest-created venue
        with exactly this name, or none. */
    method FindFirstVenueNamed(name: string) returns (r: Option<Id>)
      requires Valid()
      ensures r.Some? ==> IsFirstNamed(venues, name, r.value)
      ensures r.None? <==> !HasVenueNamed(venues, name)
    {
      r := None;
      var todo := venues.Keys;
      while todo != {}
        invariant todo <= venues.Keys
        invariant r.Some? ==> r.value in venues && venues[r.value].name == name
        invariant r.Some? ==> forall o :: o in venues && o !in todo && venues[o].name == name ==>
                                venues[r.value].created <= venues[o].created
        invariant r.None? ==> forall o :: o in venues && o !in todo ==> venues[o].name != name
        decreases todo
      {
        var k :| k in todo;
        if venues[k].name == name && (r.None? || venues[k].created < venues[r.value].created) {
          r := Some(k);
        }
        todo := todo - {k};
      }
    }

    /** `prisma.venue.create`: fails, changing nothing, when the owner email is
        already held (the unique index rejects it). */
    method CreateVenue(name: string, location: string, kind: string,
                       ownerEmail: string, password: string) returns (r: Option<Id>)
      requires Valid()
      modifies this`venues, this`clock
      ensures Valid()
      ensures r.None? <==> old(EmailTaken(venues, ownerEmail))
      ensures r.None? ==> venues == old(venues) && clock == old(clock)
      ensures r.Some? ==> r.value !in old(venues)
      ensures r.Some? ==>
        venues == old(venues)[r.value := Venue(r.value, name, location, kind, ownerEmail, password, old(clock))]
    {
      if EmailTaken(venues, ownerEmail) {
        return None;
      }
      var id, stamp := NextId();
      venues := venues[id := Venue(id, name, location, kind, ownerEmail, password, stamp)];
      r := Some(id);
    }

    /** `prisma.venue.update` of the five editable columns: fails, changing
        nothing, when the venue is missing or another venue holds the email. */
    method UpdateVenue(id: Id, name: string, location: string, kind: string,
                       ownerEmail: string, password: string) returns (ok: bool)
      requires Valid()
      modifies this`venues
      ensures Valid()
      ensures ok <==> (id in old(venues) &&
        forall o :: o in old(venues) && old(venues)[o].ownerEmail == ownerEmail ==> o == id)
      ensures !ok ==> venues == old(venues)
      ensures ok ==> venues == old(venues)[id := old(venues)[id].(name := name, location := location,
                        kind := kind, ownerEmail := ownerEmail, password := password)]
    {
      if id !in venues {
        return false;
      }
      if exists o :: o in venues && venues[o].ownerEmail == ownerEmail && o != id {
        return false;
      }
      venues := venues[id := venues[id].(name := name, location := location, kind := kind,
                                         ownerEmail := ownerEmail, password := password)];
      ok := true;
    }

    /** `prisma.venue.update({ data: { password } })`: fails when the venue is missing. */
    method SetVenuePassword(id: Id, password: string) returns (ok: bool)
      requires Valid()
      modifies this`venues
      ensures Valid()
      ensures ok <==> id in old(venues)
      ensures ok ==> venues == old(venues)[id := old(venues)[id].(password := password)]
      ensures !ok ==> venues == old(venues)
    {
      if id !in venues {
        return false;
      }
      venues := venues[id := venues[id].(password := password)];
      ok := true;
    }

    /** `prisma.venue.delete`: fails when the venue is missing; otherwise removes
        the venue and, by the cascading foreign key, any event still pointing at it. */
    method DeleteVenue(id: Id) returns (ok: bool)
      requires Valid()
      modifies this`venues, this`events
      ensures Valid()
      ensures ok <==> id in old(venues)
      ensures !ok ==> venues == old(venues) && events == old(events)
      ensures ok ==> venues == old(venues) - {id}
      ensures ok ==> events == map e | e in old(events) && old(events)[e].venueId != id :: old(events)[e]
    {
      if id !in venues {
        return false;
      }
      events := map e | e in events && events[e].venueId != id :: events[e];
      venues := venues - {id};
      ok := true;
    }

    /** `prisma.event.create`: fails, changing nothing, when the venue does not
        exist (the foreign key rejects it) or the date is invalid. */
    method CreateEvent(title: string, description: string, date: Option<Instant>,
                       category: string, bookingUrl: Option<string>,
                       groupId: Option<string>, recurrence: Option<string>,
                       venueId: Id) returns (r: Option<Id>)
      requires Valid()
      modifies this`events, this`clock
      ensures Valid()
      ensures r.None? <==> venueId !in venues || date.None?
      ensures r.None? ==> events == old(events) && clock == old(clock)
      ensures r.Some? ==> r.value !in old(events) && events == old(events)[r.value :=
        Event(r.value, title, description, date.value, category, bookingUrl, groupId, recurrence, venueId, old(clock))]
      ensures r.Some? ==> clock == old(clock) + 1
    {
      if venueId !in venues || date.None? {
        return None;
      }
      var id, stamp := NextId();
      events := events[id := Event(id, title, description, date.value, category, bookingUrl,
                                   groupId, recurrence, venueId, stamp)];
      r := Some(id);
    }

    /** `prisma.event.update` of the editable columns: fails when the event is
        missing or the date is invalid. Id, venue, group and recurrence stay. */
    method UpdateEvent(id: Id, title: string, description: string, category: string,
                       date: Option<Instant>, bookingUrl: Option<string>) returns (ok: bool)
      requires Valid()
      modifies this`events
      ensures Valid()
      ensures ok <==> id in old(events) && date.Some?
      ensures !ok ==> events == old(events)
      ensures ok ==> events == old(events)[id := old(events)[id].(title := title,
                       description := description, category := category, date := date.value,
                       bookingUrl := bookingUrl)]
    {
      if id !in events || date.None? {
        return false;
      }
      events := events[id := events[id].(title := title, description := description,
                                         category := category, date := date.value,
                                         bookingUrl := bookingUrl)];
      ok := true;
    }

    /** `prisma.event.delete`: fails when the event is missing. */
    method DeleteEvent(id: Id) returns (ok: bool)
      requires Valid()
      modifies this`events
      ensures Valid()
      ensures ok <==> id in old(events)
      ensures events == old(events) - {id}
    {
      ok := id in events;
      if ok {
        events := events - {id};
      }
    }

    /** `prisma.event.deleteMany({ where })`: removes exactly the events the
        filter selects. */
    method DeleteEventsWhere(doomed: Event -> bool)
      requires Valid()
      modifies this`events
      ensures Valid()
      ensures events == map e | e in old(events) && !doomed(old(events)[e]) :: old(events)[e]
    {
      events := map e | e in events && !doomed(events[e]) :: events[e];
    }

    /** `prisma.media.create`. */
    method CreateMedia(url: string, filename: string, mimeType: string, size: nat,
                       kind: string, labelText: Option<string>) returns (m: Media)
      requires Valid()
      modifies this`media, this`clock
      ensures Valid()
      ensures m.id !in old(media) && media == old(media)[m.id := m]
      ensures m == Media(m.id, url, filename, mimeType, size, kind, labelText, old(clock))
      ensures clock == old(clock) + 1
    {
      var id, stamp := NextId();
      m := Media(id, url, filename, mimeType, size, kind, labelText, stamp);
      media := media[id := m];
    }
  
    /** `prisma.media.delete`: fails when the record is missing. */
    method DeleteMedia(id: Id) returns (ok: bool)
      requires Valid()
      modifies this`media
      ensures Valid()
      ensures ok <==> id in old(media)
      ensures media == old(media) - {id}
    {
      ok := id in media;
      media := media - {id};
    }

    /** `prisma.media.update` of the label: fails when the record is missing. */
    method SetMediaLabel(id: Id, text: string) returns (ok: bool)
      requires Valid()
      modifies this`media
      ensures Valid()
      ensures ok <==> id in old(media)
      ensures ok ==> media == old(media)[id := old(media)[id].(labelText := Some(text))]
      ensures !ok ==> media == old(media)
    {
      if id !in media {
        return false;
      }
      media := media[id := media[id].(labelText := Some(text))];
      ok := true;
    }

    /** The blob store's `put`: the file is now held under `url`. */
    method PutBlob(url: string)
      modifies this`blobs
      ensures blobs == old(blobs) + {url}
    {
      blobs := blobs + {url};
    }

    /** The blob store's `del`: the file under `url` is gone. */
    method DeleteBlob(url: string)
      modifies this`blobs
      ensures blobs == old(blobs) - {url}
    {
      blobs := blobs - {url};
    }
  }
}
