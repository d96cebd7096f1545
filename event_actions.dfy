/** The venue owner's event actions (src/app/actions/events.ts): creating an
    event with its recurring instances, editing one instance, and deleting
    a selection. `new Date(dateStr)`, date-fns' `addWeeks`/`addMonths` and
    `crypto.randomUUID` are parameters; `development` stands for
    `NODE_ENV === 'development'`, which grants the same rights as the
    platform cookie. */
module EventActions {
  import opened Common
  import opened DateTime
  import opened Store
  import opened Cookies

  const CreateFailed: string := "Failed to create event: "

  /** The `eventData` object every instance of one submission is created from. */
  datatype EventData = EventData(title: string, description: string, category: string, venueId: Id,
                                 groupId: Option<string>, recurrence: Option<string>,
                                 bookingUrl: Option<string>)

  /** `bookingUrl || null`. */
  function NullIfEmpty(s: string): (r: Option<string>)
    ensures r.None? <==> s == ""
    ensures r.Some? ==> r.value == s
  {
    if s == "" then None else Some(s)
  }

  /** The defaults of `createEvent`: category "General" when empty, no booking
      url when empty, and a group id (the fresh `uuid`) with the recurrence tag
      unless the recurrence is exactly "none" — a missing recurrence still
      gets a group id. */
  function BaseData(title: string, description: string, category: string, venueId: Id,
                    recurrence: Option<string>, bookingUrl: string, uuid: string): (d: EventData)
    ensures d.title == title && d.description == description && d.venueId == venueId
    ensures d.category == if category == "" then "General" else category
    ensures d.groupId.Some? <==> recurrence != Some("none")
    ensures d.groupId.Some? ==> d.groupId.value == uuid
    ensures recurrence == Some("none") ==> d.recurrence.None?
    ensures recurrence != Some("none") ==> d.recurrence == recurrence
    ensures d.bookingUrl == NullIfEmpty(bookingUrl)
  {
    var tagged := recurrence != Some("none");
    EventData(title, description, if category == "" then "General" else category, venueId,
              if tagged then Some(uuid) else None, if tagged then recurrence else None,
              NullIfEmpty(bookingUrl))
  }

  /** An event row carries the submission's data at the given date. */
  predicate IsInstance(ev: Event, d: EventData, date: Instant) {
    && ev.title == d.title && ev.description == d.description && ev.category == d.category
    && ev.venueId == d.venueId && ev.groupId == d.groupId && ev.recurrence == d.recurrence
    && ev.bookingUrl == d.bookingUrl && ev.date == date
  }

  /** The dates of the instances one submission asks for: the start, then
      twelve weekly or six monthly offsets, or nothing more. An offset the
      date library cannot represent is none. */
  function InstanceDates(start: Instant, recurrence: Option<string>,
                         addWeeks: (Instant, nat) -> Option<Instant>,
                         addMonths: (Instant, nat) -> Option<Instant>): (ds: seq<Option<Instant>>)
    ensures |ds| == InstanceCount(recurrence)
    ensures ds[0] == Some(start)
    ensures forall i :: 1 <= i < |ds| ==> ds[i] == OffsetOf(recurrence, addWeeks, addMonths)(start, i)
  {
    var add := OffsetOf(recurrence, addWeeks, addMonths);
    seq(InstanceCount(recurrence), i requires 0 <= i < InstanceCount(recurrence) =>
      if i == 0 then Some(start) else add(start, i))
  }

  /** How many instances a submission asks for: 13 weekly, 7 monthly, else one. */
  function InstanceCount(recurrence: Option<string>): (n: nat)
    ensures recurrence == Some("weekly") ==> n == 13
    ensures recurrence == Some("monthly") ==> n == 7
    ensures recurrence != Some("weekly") && recurrence != Some("monthly") ==> n == 1
  {
    if recurrence == Some("weekly") then 13 else if recurrence == Some("monthly") then 7 else 1
  }

  /** The date arithmetic of the offsets: months for a monthly series, weeks
      otherwise (a one-off event has no offsets). */
  function OffsetOf(recurrence: Option<string>, addWeeks: (Instant, nat) -> Option<Instant>,
                    addMonths: (Instant, nat) -> Option<Instant>): (Instant, nat) -> Option<Instant>
  {
    if recurrence == Some("monthly") then addMonths else addWeeks
  }

  /** `e1` is `e0` plus the instances `created`, one per leading date, each
      under a fresh id; nothing else changed. */
  ghost predicate Extends(e0: map<Id, Event>, e1: map<Id, Event>, created: seq<Id>, d: EventData,
                          dates: seq<Option<Instant>>) {
    && |created| <= |dates|
    && (forall k :: 0 <= k < |created| ==>
          created[k] !in e0 && created[k] in e1 && dates[k].Some? && IsInstance(e1[created[k]], d, dates[k].value))
    && (forall j, k :: 0 <= j < k < |created| ==> created[j] != created[k])
    && (forall id :: id in e0 ==> id in e1 && e1[id] == e0[id])
    && (forall id :: id in e1 ==> id in e0 || id in created)
  }

  /** Creating the next instance extends the extension by one. */
  lemma ExtendsStep(e0: map<Id, Event>, e1: map<Id, Event>, created: seq<Id>, d: EventData,
                    dates: seq<Option<Instant>>, id: Id, ev: Event)
    requires Extends(e0, e1, created, d, dates) && |created| < |dates|
    requires id !in e1 && dates[|created|].Some? && IsInstance(ev, d, dates[|created|].value)
    ensures Extends(e0, e1[id := ev], created + [id], d, dates)
  {
    var c := created + [id];
    forall j, k | 0 <= j < k < |c|
      ensures c[j] != c[k]
    {
      if k == |created| {
        assert c[j] == created[j] && created[j] in e1;
      } else {
        assert c[j] == created[j] && c[k] == created[k];
      }
    }
  }

  /** One `prisma.event.create({ data: { ...eventData, date } })` of the
      expansion: on success the extension grows by the new instance; on
      failure nothing changes and the reason is the date or the venue. */
  method AddInstance(store: RecordStore, d: EventData, date: Option<Instant>,
                     ghost e0: map<Id, Event>, ghost created: seq<Id>, ghost dates: seq<Option<Instant>>)
      returns (id: Option<Id>)
    requires store.Valid()
    requires Extends(e0, store.events, created, d, dates) && |created| < |dates| && dates[|created|] == date
    modifies store`events, store`clock
    ensures store.Valid()
    ensures id.Some? ==> Extends(e0, store.events, created + [id.value], d, dates)
    ensures id.None? ==> store.events == old(store.events) && (date.None? || d.venueId !in store.venues)
  {
    id := store.CreateEvent(d.title, d.description, date, d.category, d.bookingUrl, d.groupId, d.recurrence,
                            d.venueId);
    if id.Some? {
      ExtendsStep(e0, old(store.events), created, d, dates, id.value, store.events[id.value]);
    }
  }

  /** The `for (let i = 1; i < n; i++)` loop of the expansion: instance `i`
      at `add(start, i)`, where `add` is `addWeeks` (n = 13) or `addMonths`
      (n = 7); it stops at the first instance the store rejects. */
  method CreateOffsets(store: RecordStore, data: EventData, start: Instant, n: nat,
                       add: (Instant, nat) -> Option<Instant>, first: Id,
                       ghost e0: map<Id, Event>, ghost dates: seq<Option<Instant>>) returns (ok: bool, created: seq<Id>)
    requires store.Valid()
    requires |dates| == n >= 1 && forall i :: 1 <= i < |dates| ==> dates[i] == add(start, i)
    requires Extends(e0, store.events, [first], data, dates)
    modifies store`events, store`clock
    ensures store.Valid()
    ensures Extends(e0, store.events, created, data, dates)
    ensures ok <==> |created| == n
    ensures !ok ==> dates[|created|].None? || data.venueId !in store.venues
  {
    created := [first];
    for i := 1 to n
      invariant store.Valid()
      invariant |created| == i
      invariant Extends(e0, store.events, created, data, dates)
    {
      var next := AddInstance(store, data, add(start, i), e0, created, dates);
      if next.None? {
        return false, created;
      }
      created := created + [next.value];
    }
    ok := true;
  }

  /** The `try` block of `createEvent`: the first instance at the start date,
      then the weekly or monthly offsets, stopping at the first instance the
      store rejects. */
  method ExpandRecurrence(store: RecordStore, data: EventData, start: Instant, recurrence: Option<string>,
                          addWeeks: (Instant, nat) -> Option<Instant>,
                          addMonths: (Instant, nat) -> Option<Instant>) returns (ok: bool, created: seq<Id>)
    requires store.Valid()
    modifies store`events, store`clock
    ensures store.Valid()
    ensures var dates := InstanceDates(start, recurrence, addWeeks, addMonths);
      && Extends(old(store.events), store.events, created, data, dates)
      && (ok <==> |created| == |dates|)
      && (!ok ==> dates[|created|].None? || data.venueId !in store.venues)
  {
    ghost var dates := InstanceDates(start, recurrence, addWeeks, addMonths);
    var first := AddInstance(store, data, Some(start), old(store.events), [], dates);
    if first.None? {
      return false, [];
    }
    assert [] + [first.value] == [first.value];
    // a one-off event is the same loop with no offsets
    ok, created := CreateOffsets(store, data, start, InstanceCount(recurrence),
                                 OffsetOf(recurrence, addWeeks, addMonths), first.value, old(store.events), dates);
  }

  /** `createEvent`. Without a `venue_id` cookie, or without a title or date,
      it fails before any write. Otherwise it creates the instances in order
      — the start, then the weekly or monthly offsets — and stops at the
      first one the store rejects (an unrepresentable date, or a venue that
      no longer exists), keeping the instances already created. */
  method CreateEvent(store: RecordStore, cookies: map<string, Cookie>,
                     title: string, description: string, dateStr: string, category: string,
                     recurrence: Option<string>, bookingUrl: string,
                     parseDate: string -> Option<Instant>,
                     addWeeks: (Instant, nat) -> Option<Instant>,
                     addMonths: (Instant, nat) -> Option<Instant>,
                     uuid: string) returns (r: ActionResult, created: seq<Id>)
    requires store.Valid()
    modifies store`events, store`clock
    ensures store.Valid()
    ensures !Truthy(ValueOf(cookies, VenueCookie)) ==>
      r == Failure("Unauthorized") && store.events == old(store.events)
    ensures Truthy(ValueOf(cookies, VenueCookie)) && (title == "" || dateStr == "") ==>
      r == Failure("Missing Required Fields") && store.events == old(store.events)
    ensures r == Failure("Unauthorized") || r == Failure("Missing Required Fields") ==> created == []
    ensures Truthy(ValueOf(cookies, VenueCookie)) && title != "" && dateStr != "" ==>
      var venueId := ValueOf(cookies, VenueCookie).value;
      var d := BaseData(title, description, category, venueId, recurrence, bookingUrl, uuid);
      match parseDate(dateStr)
      case None => r == Failure(CreateFailed) && created == [] && store.events == old(store.events)
      case Some(start) =>
        var dates := InstanceDates(start, recurrence, addWeeks, addMonths);
        && Extends(old(store.events), store.events, created, d, dates)
        && (r == RedirectTo("/admin/dashboard") <==> |created| == |dates|)
        && (r != RedirectTo("/admin/dashboard") ==>
              r == Failure(CreateFailed) && (dates[|created|].None? || venueId !in store.venues))
  {
    created := [];
    var venueId := ValueOf(cookies, VenueCookie);
    if !Truthy(venueId) {
      return Failure("Unauthorized"), [];
    }
    if title == "" || dateStr == "" {
      return Failure("Missing Required Fields"), [];
    }
    var startDate := parseDate(dateStr);
    var data := BaseData(title, description, category, venueId.value, recurrence, bookingUrl, uuid);
    if startDate.None? {
      // the store rejects the invalid date
      var none := store.CreateEvent(data.title, data.description, startDate, data.category, data.bookingUrl,
                                    data.groupId, data.recurrence, data.venueId);
      return Failure(CreateFailed), [];
    }
    var ok;
    ok, created := ExpandRecurrence(store, data, startDate.value, recurrence, addWeeks, addMonths);
    r := if ok then RedirectTo("/admin/dashboard") else Failure(CreateFailed);
  }

  /** `isPlatformAdmin` of the edit and delete actions: the platform cookie, or
      a development build. */
  predicate IsAdmin(cookies: map<string, Cookie>, development: bool) {
    HasPlatformCookie(cookies) || development
  }

  /** Either session is present. */
  predicate SignedIn(cookies: map<string, Cookie>, development: bool) {
    Truthy(ValueOf(cookies, VenueCookie)) || IsAdmin(cookies, development)
  }

  /** The event exists and belongs to the venue of the cookie. */
  predicate Owns(events: map<Id, Event>, id: Id, venueId: Option<string>) {
    id in events && Some(events[id].venueId) == venueId
  }

  /** Where a successful edit sends the caller. */
  function DashboardOf(admin: bool): (path: string)
    ensures admin <==> path == "/platform/dashboard"
    ensures !admin <==> path == "/admin/dashboard"
  {
    if admin then "/platform/dashboard" else "/admin/dashboard"
  }

  /** `updateEvent`. Without either session it refuses; a missing title or date
      is refused next; a venue owner may only edit an event of their own venue.
      The platform administrator skips the ownership lookup, so for them a
      missing event reaches the store, whose update throws; an unparseable
      date throws in the store for everyone. Only the title, description,
      category, date and booking url of the one event change. */
  method UpdateEvent(store: RecordStore, cookies: map<string, Cookie>, development: bool, id: Id,
                     title: string, description: string, dateStr: string, category: string,
                     bookingUrl: string, parseDate: string -> Option<Instant>) returns (r: ActionResult)
    requires store.Valid()
    modifies store`events
    ensures store.Valid()
    ensures !SignedIn(cookies, development) ==> r == Failure("Unauthorized")
    ensures SignedIn(cookies, development) && (title == "" || dateStr == "") ==>
      r == Failure("Missing Required Fields")
    ensures SignedIn(cookies, development) && title != "" && dateStr != "" && !IsAdmin(cookies, development) ==>
      (r == Failure("Unauthorized") <==> !Owns(old(store.events), id, ValueOf(cookies, VenueCookie)))
    ensures r.Failure? || r.Thrown? ==> store.events == old(store.events)
    ensures r.Thrown? <==>
      && SignedIn(cookies, development) && title != "" && dateStr != ""
      && (IsAdmin(cookies, development) || Owns(old(store.events), id, ValueOf(cookies, VenueCookie)))
      && (id !in old(store.events) || parseDate(dateStr).None?)
    ensures r.RedirectTo? ==>
      && r.path == DashboardOf(IsAdmin(cookies, development))
      && (IsAdmin(cookies, development) || Owns(old(store.events), id, ValueOf(cookies, VenueCookie)))
      && id in old(store.events) && parseDate(dateStr).Some?
      && store.events == old(store.events)[id := old(store.events)[id].(title := title,
           description := description, category := category, date := parseDate(dateStr).value,
           bookingUrl := NullIfEmpty(bookingUrl))]
    ensures r.Failure? || r.Thrown? || r.RedirectTo?
  {
    var venueId := ValueOf(cookies, VenueCookie);
    var admin := IsAdmin(cookies, development);
    if !Truthy(venueId) && !admin {
      return Failure("Unauthorized");
    }
    if title == "" || dateStr == "" {
      return Failure("Missing Required Fields");
    }
    if !admin && Truthy(venueId) {
      if !Owns(store.events, id, venueId) {
        return Failure("Unauthorized");
      }
    }
    var ok := store.UpdateEvent(id, title, description, category, parseDate(dateStr), NullIfEmpty(bookingUrl));
    if !ok {
      return Thrown;
    }
    r := RedirectTo(DashboardOf(admin));
  }

  /** The `where` of `deleteEvents`: the listed ids, restricted to the
      caller's venue unless the caller is the administrator (`owner` none). */
  predicate Selected(ev: Event, ids: seq<Id>, owner: Option<Id>) {
    ev.id in ids && (owner.None? || ev.venueId == owner.value)
  }

  /** The events left after `deleteMany` with that filter. */
  function Remaining(events: map<Id, Event>, ids: seq<Id>, owner: Option<Id>): (rest: map<Id, Event>)
    ensures forall e :: e in rest <==> e in events && !Selected(events[e], ids, owner)
    ensures forall e :: e in rest ==> rest[e] == events[e]
  {
    map e | e in events && !Selected(events[e], ids, owner) :: events[e]
  }

  /** Deleting the same selection twice removes nothing more. */
  lemma RemainingIdempotent(events: map<Id, Event>, ids: seq<Id>, owner: Option<Id>)
    ensures Remaining(Remaining(events, ids, owner), ids, owner) == Remaining(events, ids, owner)
  {
    var once := Remaining(events, ids, owner);
    assert Remaining(once, ids, owner).Keys == once.Keys;
  }

  /** A venue owner's deletion never touches another venue's events, and an
      event whose id was not listed survives any deletion. */
  lemma RemainingSparesOthers(events: map<Id, Event>, ids: seq<Id>, owner: Option<Id>, e: Id)
    requires e in events
    requires events[e].id !in ids || (owner.Some? && events[e].venueId != owner.value)
    ensures e in Remaining(events, ids, owner) && Remaining(events, ids, owner)[e] == events[e]
  {
  }

  /** `deleteEvents`. Without either session it refuses; otherwise it deletes
      every listed event, only those of the caller's venue unless the caller
      is the administrator, and reports success — also when nothing matched. */
  method DeleteEvents(store: RecordStore, cookies: map<string, Cookie>, development: bool, ids: seq<Id>)
      returns (r: ActionResult)
    requires store.Valid()
    modifies store`events
    ensures store.Valid()
    ensures !SignedIn(cookies, development) ==> r == Failure("Unauthorized") && store.events == old(store.events)
    ensures SignedIn(cookies, development) ==>
      r == Success &&
      store.events == Remaining(old(store.events), ids,
                                if IsAdmin(cookies, development) then None else ValueOf(cookies, VenueCookie))
  {
    var venueId := ValueOf(cookies, VenueCookie);
    var admin := IsAdmin(cookies, development);
    if !Truthy(venueId) && !admin {
      return Failure("Unauthorized");
    }
    var owner := if admin then None else venueId;
    store.DeleteEventsWhere(ev => Selected(ev, ids, owner));
    r := Success;
  }
}
