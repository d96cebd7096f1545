/** The scheduled reminder job (src/app/api/cron/reminders/route.ts): behind a
    bearer-token check it selects the venues with nothing upcoming and lists
    the owner email each reminder goes to. `CRON_SECRET` and the clock are
    parameters; `storeFails` stands for the query throwing. */
module Reminders {
  import opened Common
  import opened DateTime
  import opened Store

  /** The header the route compares with, as written: a template literal
      renders an unset secret as "undefined". */
  function ExpectedHeader(secret: Option<string>): (h: string)
    ensures secret.Some? ==> h == "Bearer " + secret.value
    ensures secret.None? ==> h == "Bearer undefined"
  {
    "Bearer " + if secret.Some? then secret.value else "undefined"
  }

  /** The check as written: the authorization header equals the expected one. */
  predicate BearerAcceptedAsWritten(header: Option<string>, secret: Option<string>) {
    header == Some(ExpectedHeader(secret))
  }

  /** With no secret configured, anyone sending "Bearer undefined" passes. */
  lemma UnsetSecretAdmitsGuess()
    ensures BearerAcceptedAsWritten(Some("Bearer undefined"), None)
  {
  }

  /** The check as evidently intended: a configured, non-empty secret, and
      the header carrying exactly it. */
  predicate BearerAccepted(header: Option<string>, secret: Option<string>) {
    Truthy(secret) && header == Some("Bearer " + secret.value)
  }

  /** The intended check refuses every header while no secret is set, and
      agrees with the written one once a secret is set. */
  lemma BearerNeedsSecret(header: Option<string>, secret: Option<string>)
    ensures !Truthy(secret) ==> !BearerAccepted(header, secret)
    ensures Truthy(secret) ==> (BearerAccepted(header, secret) <==> BearerAcceptedAsWritten(header, secret))
  {
  }

  /** The venue has an event dated now or later. */
  predicate HasUpcoming(events: map<Id, Event>, venue: Id, now: Instant) {
    exists e :: e in events && events[e].venueId == venue && events[e].date >= now
  }

  /** `events: { none: { date: { gte: now } } }`: venues with only past events,
      or none at all. */
  function StaleVenues(venues: map<Id, Venue>, events: map<Id, Event>, now: Instant): (stale: set<Id>)
    ensures forall v :: v in stale <==> v in venues && !HasUpcoming(events, v, now)
  {
    set v | v in venues && !HasUpcoming(events, v, now)
  }

  /** A venue with no events at all is stale; one event from `now` on makes
      it current. */
  lemma StaleMeansNothingAhead(venues: map<Id, Venue>, events: map<Id, Event>, now: Instant, v: Id, e: Id)
    requires v in venues
    ensures (forall x :: x in events ==> events[x].venueId != v) ==> v in StaleVenues(venues, events, now)
    ensures e in events && events[e].venueId == v && events[e].date >= now ==> v !in StaleVenues(venues, events, now)
  {
  }

  /** `prisma.venue.findMany` with that filter: the stale venues, each once,
      in an order the query leaves open. */
  method FindStale(store: RecordStore, now: Instant) returns (rows: seq<Id>)
    requires store.Valid()
    ensures Distinct(rows)
    ensures forall v :: v in rows <==> v in StaleVenues(store.venues, store.events, now)
  {
    var todo := StaleVenues(store.venues, store.events, now);
    rows := [];
    while todo != {}
      invariant Distinct(rows)
      invariant forall v :: v in rows ==> v !in todo
      invariant forall v :: v in StaleVenues(store.venues, store.events, now) <==> v in rows || v in todo
      decreases todo
    {
      var v :| v in todo;
      rows := rows + [v];
      todo := todo - {v};
    }
  }

  /** The owner emails of the listed venues, in order. */
  function Emails(venues: map<Id, Venue>, ids: seq<Id>): (emails: seq<string>)
    requires forall v :: v in ids ==> v in venues
    ensures |emails| == |ids|
    ensures forall i :: 0 <= i < |ids| ==> emails[i] == venues[ids[i]].ownerEmail
  {
    if ids == [] then [] else Emails(venues, ids[..|ids| - 1]) + [venues[ids[|ids| - 1]].ownerEmail]
  }

  /** Distinct venues have distinct owner emails, so nobody is mailed twice. */
  lemma EmailsDistinct(venues: map<Id, Venue>, ids: seq<Id>)
    requires UniqueOwnerEmails(venues) && Distinct(ids) && forall v :: v in ids ==> v in venues
    ensures forall i, j :: 0 <= i < j < |ids| ==> Emails(venues, ids)[i] != Emails(venues, ids)[j]
  {
    var emails := Emails(venues, ids);
    forall i, j | 0 <= i < j < |ids|
      ensures emails[i] != emails[j]
    {
      assert ids[i] != ids[j];
    }
  }

  datatype Response = Unauthorized401 | ServerError500 | Processed(staleCount: nat, sentTo: seq<string>)

  /** `GET`. A request without the right bearer token is refused with 401;
      a failing query gives 500; otherwise the response counts the stale
      venues and lists, in query order, the owner email of each of them. The
      token check is the intended one. */
  method Get(store: RecordStore, header: Option<string>, secret: Option<string>, now: Instant, storeFails: bool)
      returns (response: Response, ghost stale: seq<Id>)
    requires store.Valid()
    ensures !BearerAccepted(header, secret) ==> response == Unauthorized401
    ensures BearerAccepted(header, secret) && storeFails ==> response == ServerError500
    ensures BearerAccepted(header, secret) && !storeFails ==>
      && response.Processed?
      && Distinct(stale)
      && (forall v :: v in stale <==> v in StaleVenues(store.venues, store.events, now))
      && response.staleCount == |stale| == |response.sentTo|
      && response.sentTo == Emails(store.venues, stale)
  {
    stale := [];
    if !BearerAccepted(header, secret) {
      return Unauthorized401, stale;
    }
    if storeFails {
      return ServerError500, stale;
    }
    var rows := FindStale(store, now);
    var sentTo: seq<string> := [];
    assert forall v :: v in rows ==> v in store.venues;
    for i := 0 to |rows|
      invariant sentTo == Emails(store.venues, rows[..i])
    {
      assert rows[..i + 1][..i] == rows[..i];
      sentTo := sentTo + [store.venues[rows[i]].ownerEmail];
    }
    assert rows[..|rows|] == rows;
    stale := rows;
    response := Processed(|rows|, sentTo);
  }
}
