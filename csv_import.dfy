/** The bulk importer (`importEventsFromCsv`, src/app/actions/import.ts): every
    line of the uploaded file is either passed over (blank or header), counted
    as an error, or reconciled with the store — the venue is found by name or
    created as a placeholder, and the event is updated when one with the same
    venue, title and calendar day exists, created otherwise. */
module CsvImport {
  import opened Common
  import opened DateTime
  import opened Store
  import opened CsvParse

  const HeaderPrefix: string := "date,venue"

  /** The columns of a placeholder venue the importer creates. */
  const PlaceholderLocation: string := "Romiley"
  const PlaceholderKind: string := "Other"
  const PlaceholderPassword: string := "temp123"

  /** A trimmed line the loop passes over without counting it: a blank line or
      the header row (matched case-insensitively). */
  predicate IsIgnored(line: string) {
    line == [] || StartsWith(Lower(line), HeaderPrefix)
  }

  /** One data row: date, venue, time, category and title are required;
      detail defaults to "" and an empty booking url is stored as null. */
  datatype Row = Row(dateStr: string, venueName: string, timeStr: string, category: string,
                     title: string, detail: string, bookingUrl: Option<string>)

  /** The row a (trimmed, non-ignored) line describes, or none when it has
      fewer than five columns or one of the five required columns is empty. */
  function ParseRow(line: string): (r: Option<Row>)
    ensures var cols := CsvFields(line);
      r.None? <==> (|cols| < 5 || cols[0] == "" || cols[1] == "" || cols[2] == ""
                    || cols[3] == "" || cols[4] == "")
    ensures r.Some? ==> r.value.dateStr != "" && r.value.venueName != "" && r.value.timeStr != ""
                        && r.value.category != "" && r.value.title != ""
    ensures r.Some? ==> '"' !in r.value.title && '"' !in r.value.category && '"' !in r.value.detail
    ensures r.Some? && r.value.bookingUrl.Some? ==> r.value.bookingUrl.value != ""
  {
    var cols := CsvFields(line);
    if |cols| < 5 then None
    else if cols[0] == "" || cols[1] == "" || cols[2] == "" || cols[3] == "" || cols[4] == "" then None
    else
      Some(Row(cols[0], cols[1], cols[2], cols[3], cols[4],
               if |cols| > 5 then cols[5] else "",
               if |cols| > 6 && cols[6] != "" then Some(cols[6]) else None))
  }

  /** The data row behind a raw line of the file, if it has one. */
  function RowOf(raw: string): (r: Option<Row>)
    ensures IsIgnored(Trim(raw)) ==> r.None?
  {
    var line := Trim(raw);
    if IsIgnored(line) then None else ParseRow(line)
  }

  /** The owner email of a placeholder venue: `${slug}@placeholder.com`. */
  function PlaceholderEmail(name: string): string {
    GenerateSlug(name) + "@placeholder.com"
  }

  /** The day window `[dayStart, dayEnd]` is a pair of valid dates; otherwise
      the event query throws and the line counts as an error. */
  predicate WindowValid(t: Instant) {
    -MaxTime <= DayStart(t) && DayEnd(t) <= MaxTime
  }

  /** The natural key of an imported event: venue, exact title, calendar day. */
  predicate SameKey(ev: Event, venueId: Id, title: string, t: Instant) {
    ev.venueId == venueId && ev.title == title && DayOf(ev.date) == DayOf(t)
  }

  /** What reconciling a data row depends on: the trimmed venue name, the
      title and the parsed date. */
  datatype LineKey = LineKey(venueName: string, title: string, date: Option<Instant>)

  function KeyOf(raw: string): (k: Option<LineKey>)
    ensures k.None? <==> RowOf(raw).None?
  {
    match RowOf(raw)
    case None => None
    case Some(row) => Some(LineKey(Trim(row.venueName), row.title, ParseStrictDate(row.dateStr, row.timeStr)))
  }

  /** A line is settled in a store when importing it again would add nothing:
      it is not a data row, or it names an unknown venue whose placeholder
      email is already taken, or its date is unusable, or the first venue of
      that name already has an event with the line's key. */
  ghost predicate SettledKey(k: Option<LineKey>, venues: map<Id, Venue>, events: map<Id, Event>) {
    match k
    case None => true
    case Some(LineKey(name, title, date)) =>
      if !HasVenueNamed(venues, name) then EmailTaken(venues, PlaceholderEmail(name))
      else
        date.None? || !WindowValid(date.value) ||
        exists v, e :: IsFirstNamed(venues, name, v) && e in events && SameKey(events[e], v, title, date.value)
  }

  ghost predicate Settled(raw: string, venues: map<Id, Venue>, events: map<Id, Event>) {
    SettledKey(KeyOf(raw), venues, events)
  }

  /** An event as the update branch may leave it: only description, category,
      booking url and date may differ, and the date stays on the same day. */
  predicate Kept(before: Event, after: Event) {
    && after.(description := before.description, category := before.category,
              bookingUrl := before.bookingUrl, date := before.date) == before
    && DayOf(after.date) == DayOf(before.date)
  }

  /** Every venue of the first map is in the second, unchanged. */
  ghost predicate VenuesKept(v0: map<Id, Venue>, v1: map<Id, Venue>) {
    forall id :: id in v0 ==> id in v1 && v1[id] == v0[id]
  }

  /** Every venue of the second map that the first lacks is a placeholder
      under a name the first map did not have. */
  ghost predicate OnlyPlaceholdersAdded(v0: map<Id, Venue>, v1: map<Id, Venue>) {
    forall id :: id in v1 && id !in v0 ==>
      !HasVenueNamed(v0, v1[id].name) && v1[id].ownerEmail == PlaceholderEmail(v1[id].name)
  }

  /** Every event of the first map is in the second, up to the updatable columns. */
  ghost predicate EventsKept(e0: map<Id, Event>, e1: map<Id, Event>) {
    forall id :: id in e0 ==> id in e1 && Kept(e0[id], e1[id])
  }

  /** What an import may do to the store: keep every venue as it was, add
      placeholder venues only under names no venue had, and keep every event
      (up to the columns the update branch writes). */
  ghost predicate Grows(v0: map<Id, Venue>, e0: map<Id, Event>, v1: map<Id, Venue>, e1: map<Id, Event>) {
    VenuesKept(v0, v1) && OnlyPlaceholdersAdded(v0, v1) && EventsKept(e0, e1)
  }

  lemma GrowsTransitive(v0: map<Id, Venue>, e0: map<Id, Event>, v1: map<Id, Venue>, e1: map<Id, Event>,
                        v2: map<Id, Venue>, e2: map<Id, Event>)
    requires Grows(v0, e0, v1, e1) && Grows(v1, e1, v2, e2)
    ensures Grows(v0, e0, v2, e2)
  {
    PlaceholdersTransitive(v0, v1, v2);
    EventsKeptTransitive(e0, e1, e2);
  }

  lemma PlaceholdersTransitive(v0: map<Id, Venue>, v1: map<Id, Venue>, v2: map<Id, Venue>)
    requires VenuesKept(v0, v1) && OnlyPlaceholdersAdded(v0, v1)
    requires VenuesKept(v1, v2) && OnlyPlaceholdersAdded(v1, v2)
    ensures OnlyPlaceholdersAdded(v0, v2)
  {
    forall id | id in v2 && id !in v0
      ensures !HasVenueNamed(v0, v2[id].name)
    {
      if id !in v1 {
        forall w | w in v0
          ensures v0[w].name != v2[id].name
        {
          assert v1[w] == v0[w];
        }
      }
    }
  }

  lemma EventsKeptTransitive(e0: map<Id, Event>, e1: map<Id, Event>, e2: map<Id, Event>)
    requires EventsKept(e0, e1) && EventsKept(e1, e2)
    ensures EventsKept(e0, e2)
  {
    forall id | id in e0
      ensures id in e2 && Kept(e0[id], e2[id])
    {
      assert Kept(e0[id], e1[id]) && Kept(e1[id], e2[id]);
    }
  }

  /** The update branch keeps every event. */
  lemma UpdateKeepsEvents(events: map<Id, Event>, id: Id, ev: Event)
    requires id in events && Kept(events[id], ev)
    ensures EventsKept(events, events[id := ev])
  {
  }

  /** Creating an event under a fresh id keeps every event. */
  lemma CreateKeepsEvents(events: map<Id, Event>, id: Id, ev: Event)
    requires id !in events
    ensures EventsKept(events, events[id := ev])
  {
  }

  /** Two venues that are both the first of a name are the same venue: their
      creation times agree, and so do the ids issued at those times. */
  lemma FirstNamedUnique(venues: map<Id, Venue>, clock: nat, name: string, a: Id, b: Id)
    requires VenueKeys(venues, clock)
    requires IsFirstNamed(venues, name, a) && IsFirstNamed(venues, name, b)
    ensures a == b
  {
    assert venues[a].created == venues[b].created;
  }

  /** A first-named venue stays the first of its name when the store grows:
      venues added later carry names no venue had. */
  lemma FirstNamedGrows(v0: map<Id, Venue>, e0: map<Id, Event>, v1: map<Id, Venue>, e1: map<Id, Event>,
                        name: string, v: Id)
    requires Grows(v0, e0, v1, e1) && IsFirstNamed(v0, name, v)
    ensures IsFirstNamed(v1, name, v)
  {
    assert HasVenueNamed(v0, name);
    forall o | o in v1 && v1[o].name == name
      ensures o in v0
    {
    }
  }

  /** A placeholder email that is taken stays taken, and no venue of the name
      can appear: it would have to carry that same email. */
  lemma UnknownNameGrows(v0: map<Id, Venue>, e0: map<Id, Event>, v1: map<Id, Venue>, e1: map<Id, Event>,
                         name: string)
    requires Grows(v0, e0, v1, e1) && UniqueOwnerEmails(v1)
    requires !HasVenueNamed(v0, name) && EmailTaken(v0, PlaceholderEmail(name))
    ensures !HasVenueNamed(v1, name) && EmailTaken(v1, PlaceholderEmail(name))
  {
    var h :| h in v0 && v0[h].ownerEmail == PlaceholderEmail(name);
    assert h in v1 && v1[h].ownerEmail == PlaceholderEmail(name);
    forall w | w in v1
      ensures v1[w].name != name
    {
      if w in v0 {
        assert v1[w] == v0[w];
      } else {
        assert w != h;
        assert v1[w].ownerEmail == PlaceholderEmail(v1[w].name);
      }
    }
  }

  /** A settled line stays settled however the store grows. */
  lemma SettledGrows(k: Option<LineKey>, v0: map<Id, Venue>, e0: map<Id, Event>,
                     v1: map<Id, Venue>, e1: map<Id, Event>)
    requires SettledKey(k, v0, e0) && Grows(v0, e0, v1, e1) && UniqueOwnerEmails(v1)
    ensures SettledKey(k, v1, e1)
  {
    match k
    case None =>
    case Some(LineKey(name, title, date)) =>
      if !HasVenueNamed(v0, name) {
        UnknownNameGrows(v0, e0, v1, e1, name);
      } else {
        var w :| w in v0 && v0[w].name == name;
        assert w in v1 && v1[w].name == name;
        if date.Some? && WindowValid(date.value) {
          var v, e :| IsFirstNamed(v0, name, v) && e in e0 && SameKey(e0[e], v, title, date.value);
          FirstNamedGrows(v0, e0, v1, e1, name, v);
          assert e in e1 && SameKey(e1[e], v, title, date.value);
        }
      }
  }

  /** When the first venue of the name has no event with the line's key,
      the line (with a usable date) was not settled. */
  lemma NoMatchUnsettled(venues: map<Id, Venue>, events: map<Id, Event>, clock: nat,
                         name: string, title: string, vid: Id, t: Instant)
    requires VenueKeys(venues, clock) && IsFirstNamed(venues, name, vid) && WindowValid(t)
    requires forall e :: e in events ==> !SameKey(events[e], vid, title, t)
    ensures !SettledKey(Some(LineKey(name, title, Some(t))), venues, events)
  {
    forall v, e | IsFirstNamed(venues, name, v) && e in events
      ensures !SameKey(events[e], v, title, t)
    {
      FirstNamedUnique(venues, clock, name, v, vid);
    }
  }

  /** Whether the loop counts a line: neither blank nor the header. */
  predicate Counted(raw: string) {
    !IsIgnored(Trim(raw))
  }

  /** The number of lines the loop counts. */
  function DataLines(lines: seq<string>): (n: nat)
    ensures n <= |lines|
  {
    if lines == [] then 0
    else DataLines(lines[..|lines| - 1]) + (if Counted(lines[|lines| - 1]) then 1 else 0)
  }

  /** One more line counts one more when the loop counts it. */
  lemma DataLinesStep(lines: seq<string>, i: nat)
    requires i < |lines|
    ensures DataLines(lines[..i + 1]) == DataLines(lines[..i]) + (if Counted(lines[i]) then 1 else 0)
  {
    assert lines[..i + 1][..i] == lines[..i];
  }

  /** The keys of the lines of a file, line by line. */
  function KeysOf(lines: seq<string>): (ks: seq<Option<LineKey>>)
    ensures |ks| == |lines|
  {
    seq(|lines|, i requires 0 <= i < |lines| => KeyOf(lines[i]))
  }

  /** A key the event step can use: a data row whose date parsed and whose
      day window is valid. */
  predicate Usable(k: Option<LineKey>) {
    k.Some? && k.value.date.Some? && WindowValid(k.value.date.value)
  }

  /** Whether the loop saves an event for a line with key `k`, given the
      venues before the line: a usable key whose venue is known or whose
      placeholder venue can be created. */
  predicate Saves(k: Option<LineKey>, venues: map<Id, Venue>) {
    Usable(k) && (HasVenueNamed(venues, k.value.venueName) || !EmailTaken(venues, PlaceholderEmail(k.value.venueName)))
  }

  /** The number of usable keys: no line without one can be saved. */
  function UsableLines(ks: seq<Option<LineKey>>): nat {
    if ks == [] then 0
    else UsableLines(ks[..|ks| - 1]) + (if Usable(ks[|ks| - 1]) then 1 else 0)
  }

  /** The usable keys whose venue name `venues` already has: their lines are
      saved whatever the lines before them did. */
  function KnownLines(ks: seq<Option<LineKey>>, venues: map<Id, Venue>): nat {
    if ks == [] then 0
    else
      var k := ks[|ks| - 1];
      KnownLines(ks[..|ks| - 1], venues) + (if Usable(k) && HasVenueNamed(venues, k.value.venueName) then 1 else 0)
  }

  /** Known lines are usable lines. */
  lemma {:induction false} KnownWithinUsable(ks: seq<Option<LineKey>>, venues: map<Id, Venue>)
    ensures KnownLines(ks, venues) <= UsableLines(ks)
  {
    if ks != [] {
      KnownWithinUsable(ks[..|ks| - 1], venues);
    }
  }

  /** One more line adds to the usable and known counts only through its own
      outcome: an unusable line is never saved, and a known line is always
      saved while the venues of `vs` are kept. */
  lemma CountersStep(ks: seq<Option<LineKey>>, i: nat, vs: map<Id, Venue>, v0: map<Id, Venue>, saved: bool)
    requires i < |ks| && VenuesKept(vs, v0)
    requires saved <==> Saves(ks[i], v0)
    ensures UsableLines(ks[..i]) + (if saved then 1 else 0) <= UsableLines(ks[..i + 1])
    ensures KnownLines(ks[..i + 1], vs) <= KnownLines(ks[..i], vs) + (if saved then 1 else 0)
  {
    assert ks[..i + 1][..i] == ks[..i];
    var k := ks[i];
    if Usable(k) && HasVenueNamed(vs, k.value.venueName) {
      var w :| w in vs && vs[w].name == k.value.venueName;
      assert w in v0 && v0[w].name == k.value.venueName;
    }
  }

  ghost predicate AllSettled(ks: seq<Option<LineKey>>, venues: map<Id, Venue>, events: map<Id, Event>) {
    forall i :: 0 <= i < |ks| ==> SettledKey(ks[i], venues, events)
  }

  /** How one line ends: passed over, counted as an error, or counted as an
      event saved (created or updated). */
  datatype LineOutcome = NotCounted | Error | EventSaved

  /** The key of a raw line, read off the row its trimmed text parses to. */
  lemma KeyOfRow(raw: string, r: Row)
    requires !IsIgnored(Trim(raw)) && ParseRow(Trim(raw)) == Some(r)
    ensures KeyOf(raw) == Some(LineKey(Trim(r.venueName), r.title, ParseStrictDate(r.dateStr, r.timeStr)))
  {
  }

  /** A line whose placeholder email is taken by another venue is settled. */
  lemma SettledByTakenEmail(venues: map<Id, Venue>, events: map<Id, Event>, name: string, title: string,
                            date: Option<Instant>)
    requires !HasVenueNamed(venues, name) && EmailTaken(venues, PlaceholderEmail(name))
    ensures SettledKey(Some(LineKey(name, title, date)), venues, events)
  {
  }

  /** A line without a venue of its name whose placeholder email is free is
      not settled: the import creates the placeholder. */
  lemma UnsettledWithoutVenue(venues: map<Id, Venue>, events: map<Id, Event>, name: string, title: string,
                              date: Option<Instant>)
    requires !HasVenueNamed(venues, name) && !EmailTaken(venues, PlaceholderEmail(name))
    ensures !SettledKey(Some(LineKey(name, title, date)), venues, events)
  {
  }

  /** A line of a named venue whose date is missing or out of range is settled. */
  lemma SettledByDate(venues: map<Id, Venue>, events: map<Id, Event>, name: string, title: string,
                      date: Option<Instant>, vid: Id)
    requires IsFirstNamed(venues, name, vid)
    requires date.None? || !WindowValid(date.value)
    ensures SettledKey(Some(LineKey(name, title, date)), venues, events)
  {
  }

  /** A line whose event the first venue of that name holds is settled. */
  lemma SettledBySaving(venues: map<Id, Venue>, events: map<Id, Event>, name: string, title: string,
                        vid: Id, t: Instant)
    requires IsFirstNamed(venues, name, vid)
    requires exists e :: e in events && SameKey(events[e], vid, title, t)
    ensures SettledKey(Some(LineKey(name, title, Some(t))), venues, events)
  {
  }

  /** Step 1 of an iteration: `findFirst` the venue by name, or create the
      placeholder venue for it. None when the creation is rejected because
      the placeholder email is already held. */
  method FindOrCreateVenue(store: RecordStore, name: string) returns (venue: Option<Id>, newVenue: bool)
    requires store.Valid()
    modifies store`venues, store`clock
    ensures store.Valid()
    ensures venue.Some? ==> IsFirstNamed(store.venues, name, venue.value)
    ensures venue.None? <==> !HasVenueNamed(old(store.venues), name) && EmailTaken(old(store.venues), PlaceholderEmail(name))
    ensures newVenue <==> !HasVenueNamed(old(store.venues), name) && !EmailTaken(old(store.venues), PlaceholderEmail(name))
    ensures newVenue ==> venue.Some? && store.venues == old(store.venues)[venue.value :=
      Venue(venue.value, name, PlaceholderLocation, PlaceholderKind, PlaceholderEmail(name), PlaceholderPassword, old(store.clock))]
    ensures newVenue ==> venue.value !in old(store.venues)
    ensures !newVenue ==> store.venues == old(store.venues)
    ensures VenuesKept(old(store.venues), store.venues) && OnlyPlaceholdersAdded(old(store.venues), store.venues)
  {
    newVenue := false;
    venue := store.FindFirstVenueNamed(name);
    if venue.None? {
      venue := store.CreateVenue(name, PlaceholderLocation, PlaceholderKind, PlaceholderEmail(name),
                                 PlaceholderPassword);
      newVenue := venue.Some?;
    }
  }

  /** The events after the upsert step of a line. When venue `vid` has an
      event with this title on the day of `t`, one such event gets the line's
      description, category, booking url and date and every other event stays
      as it was; otherwise one event with the line's columns (no group, no
      recurrence, created at `stamp`) is added under a fresh id. */
  ghost predicate Upserted(e0: map<Id, Event>, e1: map<Id, Event>, vid: Id, title: string, detail: string,
                           category: string, t: Instant, bookingUrl: Option<string>, stamp: nat) {
    if exists e :: e in e0 && SameKey(e0[e], vid, title, t) then
      exists e :: e in e0 && SameKey(e0[e], vid, title, t) &&
        e1 == e0[e := e0[e].(description := detail, category := category, bookingUrl := bookingUrl, date := t)]
    else
      exists e :: e !in e0 && e1 == e0[e := Event(e, title, detail, t, category, bookingUrl, None, None, vid, stamp)]
  }

  /** A line of venue `name` was saved: the first venue of that name took the
      upsert step. */
  ghost predicate SavedAs(venues: map<Id, Venue>, e0: map<Id, Event>, e1: map<Id, Event>, name: string,
                          title: string, detail: string, category: string, t: Instant, bookingUrl: Option<string>) {
    exists vid, stamp :: IsFirstNamed(venues, name, vid) &&
      Upserted(e0, e1, vid, title, detail, category, t, bookingUrl, stamp)
  }

  /** Step 3 of an iteration: update the event of venue `vid` with this title
      on the day of `t` if there is one (only description, category, booking
      url and date), create one otherwise. */
  method UpsertEvent(store: RecordStore, vid: Id, title: string, detail: string, category: string,
                     t: Instant, bookingUrl: Option<string>)
    requires store.Valid() && vid in store.venues
    modifies store`events, store`clock
    ensures store.Valid()
    ensures exists e :: e in store.events && SameKey(store.events[e], vid, title, t)
    ensures EventsKept(old(store.events), store.events)
    ensures (exists e :: e in old(store.events) && SameKey(old(store.events)[e], vid, title, t)) ==>
      store.events.Keys == old(store.events).Keys
    ensures Upserted(old(store.events), store.events, vid, title, detail, category, t, bookingUrl, old(store.clock))
  {
    if exists e :: e in store.events && store.events[e].venueId == vid && store.events[e].title == title
                   && DayStart(t) <= store.events[e].date <= DayEnd(t) {
      var e :| e in store.events && store.events[e].venueId == vid && store.events[e].title == title
               && DayStart(t) <= store.events[e].date <= DayEnd(t);
      SameDayWindow(t, store.events[e].date);
      var ok := store.UpdateEvent(e, store.events[e].title, detail, category, Some(t), bookingUrl);
      assert SameKey(store.events[e], vid, title, t);
      assert SameKey(old(store.events)[e], vid, title, t);
      assert store.events == old(store.events)[e := old(store.events)[e].(description := detail,
        category := category, bookingUrl := bookingUrl, date := t)];
      UpdateKeepsEvents(old(store.events), e, store.events[e]);
    } else {
      var created := store.CreateEvent(title, detail, Some(t), category, bookingUrl, None, None, vid);
      assert SameKey(store.events[created.value], vid, title, t);
      CreateKeepsEvents(old(store.events), created.value, store.events[created.value]);
      forall e | e in old(store.events)
        ensures !SameKey(old(store.events)[e], vid, title, t)
      {
        SameDayWindow(t, old(store.events)[e].date);
      }
    }
  }

  /** Steps 2 and 3 once the venue `vid` is the first of its name: a missing
      date, or one whose day window lies outside the representable range,
      saves nothing (the source counts it as an error); otherwise the upsert
      step runs. The line is settled afterwards, and when it already was, no
      event is added. */
  method SaveEvent(store: RecordStore, name: string, vid: Id, title: string, detail: string, category: string,
                   date: Option<Instant>, bookingUrl: Option<string>) returns (saved: bool)
    requires store.Valid() && IsFirstNamed(store.venues, name, vid)
    modifies store`events, store`clock
    ensures store.Valid()
    ensures saved <==> date.Some? && WindowValid(date.value)
    ensures !saved ==> store.events == old(store.events)
    ensures EventsKept(old(store.events), store.events)
    ensures SettledKey(Some(LineKey(name, title, date)), store.venues, store.events)
    ensures SettledKey(Some(LineKey(name, title, date)), store.venues, old(store.events)) ==>
      store.events.Keys == old(store.events).Keys
    ensures saved ==>
      Upserted(old(store.events), store.events, vid, title, detail, category, date.value, bookingUrl, old(store.clock))
  {
    if date.None? || !WindowValid(date.value) {
      SettledByDate(store.venues, store.events, name, title, date, vid);
      return false;
    }
    var t := date.value;
    UpsertEvent(store, vid, title, detail, category, t, bookingUrl);
    SettledBySaving(store.venues, store.events, name, title, vid, t);
    if forall e :: e in old(store.events) ==> !SameKey(old(store.events)[e], vid, title, t) {
      NoMatchUnsettled(store.venues, old(store.events), store.clock, name, title, vid, t);
    }
    saved := true;
  }

  /** The `try` block of one iteration: the venue step, then the event step.
      `date` is the line's parsed date (parsing is pure, so reading it before
      the venue lookup changes nothing). `saved` is false when the
      placeholder's email is taken, the date is missing or its day window
      lies outside the representable range: each of those throws in the
      source and counts as an error. */
  method Reconcile(store: RecordStore, name: string, title: string, detail: string, category: string,
                   date: Option<Instant>, bookingUrl: Option<string>) returns (saved: bool, newVenue: bool)
    requires store.Valid()
    modifies store`venues, store`events, store`clock
    ensures store.Valid()
    ensures newVenue ==> |store.venues| == |old(store.venues)| + 1
    ensures !newVenue ==> store.venues == old(store.venues)
    ensures !saved ==> store.events == old(store.events)
    ensures saved <==> date.Some? && WindowValid(date.value) &&
                       (HasVenueNamed(old(store.venues), name) || !EmailTaken(old(store.venues), PlaceholderEmail(name)))
    ensures Grows(old(store.venues), old(store.events), store.venues, store.events)
    ensures SettledKey(Some(LineKey(name, title, date)), store.venues, store.events)
    ensures SettledKey(Some(LineKey(name, title, date)), old(store.venues), old(store.events)) ==>
      !newVenue && store.venues.Keys == old(store.venues).Keys && store.events.Keys == old(store.events).Keys
    ensures saved ==> SavedAs(store.venues, old(store.events), store.events, name, title, detail, category,
                              date.value, bookingUrl)
  {
    var venue;
    venue, newVenue := FindOrCreateVenue(store, name);
    if venue.None? {
      SettledByTakenEmail(store.venues, store.events, name, title, date);
      return false, false;
    }
    var vid := venue.value;
    if newVenue {
      UnsettledWithoutVenue(old(store.venues), old(store.events), name, title, date);
    }
    ghost var v1, c1 := store.venues, store.clock;
    saved := SaveEvent(store, name, vid, title, detail, category, date, bookingUrl);
    if saved {
      assert IsFirstNamed(store.venues, name, vid) &&
        Upserted(old(store.events), store.events, vid, title, detail, category, date.value, bookingUrl, c1);
    }
    if SettledKey(Some(LineKey(name, title, date)), old(store.venues), old(store.events)) {
      assert !newVenue && v1 == old(store.venues);
    }
  }

  /** One iteration of the import loop on the raw line. `newVenue` says whether
      a placeholder venue was created (which happens before the date is
      checked, so a line can create a venue and still count as an error). */
  method ImportLine(store: RecordStore, raw: string) returns (outcome: LineOutcome, newVenue: bool)
    requires store.Valid()
    modifies store`venues, store`events, store`clock
    ensures store.Valid()
    ensures outcome.NotCounted? <==> IsIgnored(Trim(raw))
    ensures outcome.NotCounted? ==> !newVenue
    ensures RowOf(raw).None? ==> store.venues == old(store.venues) && store.events == old(store.events) && !newVenue
    ensures newVenue ==> |store.venues| == |old(store.venues)| + 1
    ensures !newVenue ==> store.venues == old(store.venues)
    ensures outcome.Error? ==> store.events == old(store.events)
    ensures Grows(old(store.venues), old(store.events), store.venues, store.events)
    ensures Settled(raw, store.venues, store.events)
    ensures Settled(raw, old(store.venues), old(store.events)) ==>
      !newVenue && store.venues.Keys == old(store.venues).Keys && store.events.Keys == old(store.events).Keys
    ensures outcome.EventSaved? <==> Saves(KeyOf(raw), old(store.venues))
  {
    var line := Trim(raw);
    if IsIgnored(line) {
      return NotCounted, false;
    }
    var row := ParseRow(line);
    if row.None? {
      return Error, false;
    }
    var r := row.value;
    KeyOfRow(raw, r);
    var saved;
    saved, newVenue := Reconcile(store, Trim(r.venueName), r.title, r.detail, r.category,
                                 ParseStrictDate(r.dateStr, r.timeStr), r.bookingUrl);
    outcome := if saved then EventSaved else Error;
  }

  /** One pass of the loop keeps its invariants: the store has grown from the
      start state, every line so far is settled, and a file that was settled
      from the start has changed no key. `ks` are the keys of the file's
      lines, `vs, es` the store at the start, `v0, e0` the store before line
      `i` and `v1, e1` after it. */
  lemma ImportStep(ks: seq<Option<LineKey>>, i: nat, vs: map<Id, Venue>, es: map<Id, Event>,
                   v0: map<Id, Venue>, e0: map<Id, Event>, v1: map<Id, Venue>, e1: map<Id, Event>,
                   newVenue: bool)
    requires i < |ks|
    requires Grows(vs, es, v0, e0) && AllSettled(ks[..i], v0, e0)
    requires AllSettled(ks, vs, es) ==> v0.Keys == vs.Keys && e0.Keys == es.Keys
    requires Grows(v0, e0, v1, e1) && UniqueOwnerEmails(v0) && UniqueOwnerEmails(v1)
    requires SettledKey(ks[i], v1, e1)
    requires SettledKey(ks[i], v0, e0) ==> !newVenue && v1.Keys == v0.Keys && e1.Keys == e0.Keys
    ensures Grows(vs, es, v1, e1) && AllSettled(ks[..i + 1], v1, e1)
    ensures AllSettled(ks, vs, es) ==> !newVenue && v1.Keys == vs.Keys && e1.Keys == es.Keys
  {
    GrowsTransitive(vs, es, v0, e0, v1, e1);
    if AllSettled(ks, vs, es) {
      SettledGrows(ks[i], vs, es, v0, e0);
    }
    var p := ks[..i + 1];
    forall j | 0 <= j < |p|
      ensures SettledKey(p[j], v1, e1)
    {
      if j < i {
        assert ks[..i][j] == p[j];
        SettledGrows(p[j], v0, e0, v1, e1);
      }
    }
  }

  /** What the action answers. */
  datatype ImportResult = ImportError(error: string) | ImportSuccess(message: string)

  function CompletionMessage(createdEvents: nat, createdVenues: nat, errors: nat): string {
    "Import complete. Processed " + NatToString(createdEvents) + " events and created "
    + NatToString(createdVenues) + " new venues. (" + NatToString(errors) + " skipped)"
  }

  /** Line `i` of the file, stated against the keys and the count of the
      whole file. */
  method ImportAt(store: RecordStore, lines: seq<string>, i: nat) returns (outcome: LineOutcome, newVenue: bool)
    requires store.Valid() && i < |lines|
    modifies store`venues, store`events, store`clock
    ensures store.Valid()
    ensures DataLines(lines[..i + 1]) == DataLines(lines[..i]) + (if outcome.NotCounted? then 0 else 1)
    ensures outcome.NotCounted? ==> !newVenue
    ensures newVenue ==> |store.venues| == |old(store.venues)| + 1
    ensures !newVenue ==> store.venues == old(store.venues)
    ensures Grows(old(store.venues), old(store.events), store.venues, store.events)
    ensures SettledKey(KeysOf(lines)[i], store.venues, store.events)
    ensures SettledKey(KeysOf(lines)[i], old(store.venues), old(store.events)) ==>
      !newVenue && store.venues.Keys == old(store.venues).Keys && store.events.Keys == old(store.events).Keys
    ensures outcome.EventSaved? <==> Saves(KeysOf(lines)[i], old(store.venues))
  {
    outcome, newVenue := ImportLine(store, lines[i]);
    assert KeysOf(lines)[i] == KeyOf(lines[i]);
    DataLinesStep(lines, i);
  }

  lemma WholePrefix<T>(s: seq<T>)
    ensures s[..|s|] == s
  {
  }

  /** The loop of `importEventsFromCsv` over the lines of the file: every
      counted line is either an event saved or an error, only lines with a
      usable key are saved and every usable line of a venue the store had is;
      every venue created is counted; afterwards every line is settled, and
      lines that were all settled already add no venue and no event. */
  method ImportLines(store: RecordStore, lines: seq<string>)
      returns (createdEvents: nat, createdVenues: nat, errors: nat)
    requires store.Valid()
    modifies store`venues, store`events, store`clock
    ensures store.Valid()
    ensures createdEvents + errors == DataLines(lines)
    ensures KnownLines(KeysOf(lines), old(store.venues)) <= createdEvents <= UsableLines(KeysOf(lines))
    ensures createdVenues <= createdEvents + errors && |store.venues| == |old(store.venues)| + createdVenues
    ensures Grows(old(store.venues), old(store.events), store.venues, store.events)
    ensures AllSettled(KeysOf(lines), store.venues, store.events)
    ensures AllSettled(KeysOf(lines), old(store.venues), old(store.events)) ==>
      createdVenues == 0 && store.venues.Keys == old(store.venues).Keys && store.events.Keys == old(store.events).Keys
  {
    createdEvents, createdVenues, errors := 0, 0, 0;
    ghost var ks := KeysOf(lines);
    assert lines[..0] == [] && ks[..0] == [];
    for i := 0 to |lines|
      invariant store.Valid()
      invariant createdEvents + errors == DataLines(lines[..i])
      invariant KnownLines(ks[..i], old(store.venues)) <= createdEvents <= UsableLines(ks[..i])
      invariant createdVenues <= createdEvents + errors
      invariant |store.venues| == |old(store.venues)| + createdVenues
      invariant Grows(old(store.venues), old(store.events), store.venues, store.events)
      invariant AllSettled(ks[..i], store.venues, store.events)
      invariant AllSettled(ks, old(store.venues), old(store.events)) ==>
        createdVenues == 0 && store.venues.Keys == old(store.venues).Keys && store.events.Keys == old(store.events).Keys
    {
      ghost var v0, e0 := store.venues, store.events;
      var outcome, newVenue := ImportAt(store, lines, i);
      ImportStep(ks, i, old(store.venues), old(store.events), v0, e0, store.venues, store.events, newVenue);
      CountersStep(ks, i, old(store.venues), v0, outcome.EventSaved?);
      createdVenues := createdVenues + if newVenue then 1 else 0;
      errors := errors + if outcome.Error? then 1 else 0;
      createdEvents := createdEvents + if outcome.EventSaved? then 1 else 0;
    }
    WholePrefix(lines);
    WholePrefix(ks);
  }

  /** `importEventsFromCsv`: no file gives an error and changes nothing;
      otherwise the text is split at line feeds, the lines are imported, and
      the answer reports the three counters. */
  method ImportEventsFromCsv(store: RecordStore, file: Option<string>)
      returns (result: ImportResult, createdEvents: nat, createdVenues: nat, errors: nat)
    requires store.Valid()
    modifies store`venues, store`events, store`clock
    ensures store.Valid()
    ensures file.None? ==>
      result == ImportError("No file uploaded") && store.venues == old(store.venues) && store.events == old(store.events)
    ensures file.Some? ==> result == ImportSuccess(CompletionMessage(createdEvents, createdVenues, errors))
    ensures file.Some? ==> createdEvents + errors == DataLines(Split(file.value, '\n'))
    ensures createdVenues <= createdEvents + errors
    ensures |store.venues| == |old(store.venues)| + createdVenues
    ensures Grows(old(store.venues), old(store.events), store.venues, store.events)
    ensures file.Some? ==> AllSettled(KeysOf(Split(file.value, '\n')), store.venues, store.events)
    ensures file.Some? && AllSettled(KeysOf(Split(file.value, '\n')), old(store.venues), old(store.events)) ==>
      createdVenues == 0 && store.venues.Keys == old(store.venues).Keys && store.events.Keys == old(store.events).Keys
    ensures file.Some? ==>
      KnownLines(KeysOf(Split(file.value, '\n')), old(store.venues)) <= createdEvents <= UsableLines(KeysOf(Split(file.value, '\n')))
  {
    if file.None? {
      return ImportError("No file uploaded"), 0, 0, 0;
    }
    createdEvents, createdVenues, errors := ImportLines(store, Split(file.value, '\n'));
    result := ImportSuccess(CompletionMessage(createdEvents, createdVenues, errors));
  }

  /** Importing the same file twice: the second pass creates no venue and no
      event, and counts every data line again. */
  method ImportTwice(store: RecordStore, text: string)
      returns (venueIds: set<Id>, eventIds: set<Id>, second: ImportResult)
    requires store.Valid()
    modifies store`venues, store`events, store`clock
    ensures store.Valid()
    ensures store.venues.Keys == venueIds && store.events.Keys == eventIds
    ensures exists createdEvents: nat, errors: nat ::
      createdEvents + errors == DataLines(Split(text, '\n')) &&
      second == ImportSuccess(CompletionMessage(createdEvents, 0, errors))
  {
    var first, ce1, cv1, er1 := ImportEventsFromCsv(store, Some(text));
    venueIds, eventIds := store.venues.Keys, store.events.Keys;
    var ce2, cv2, er2;
    second, ce2, cv2, er2 := ImportEventsFromCsv(store, Some(text));
  }
}
