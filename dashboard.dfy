/** The platform administrator's dashboard (src/app/platform/dashboard/client.tsx):
    the list of events with its filters, the selection set, and the social
    post text generated from the selection. React state is the `Board`
    class; each handler replaces fields of it. */
module Dashboard {
  import opened Common
  import opened DateTime
  import opened Store
  import opened Cookies
  import opened EventActions
  import opened PlatformEvents

  /** An event as the dashboard receives it, with its venue's name and location. */
  datatype Enriched = Enriched(id: Id, title: string, description: string, category: string, date: Instant,
                               venueName: string, venueLocation: string)

  /** The filter value that switches a filter off. */
  const AllValues: string := "all"

  function Ids(events: seq<Enriched>): (ids: seq<Id>)
    ensures |ids| == |events|
    ensures forall i :: 0 <= i < |events| ==> ids[i] == events[i].id
  {
    seq(|events|, i requires 0 <= i < |events| => events[i].id)
  }

  /** `toggleEvent`: the id leaves the selection if it was in it and joins
      it otherwise; the selection is a JavaScript `Set`, which keeps
      insertion order. */
  function Toggled(selected: seq<Id>, id: Id): (r: seq<Id>)
    requires Distinct(selected)
    ensures Distinct(r)
    ensures id in r <==> id !in selected
    ensures forall x :: x != id ==> (x in r <==> x in selected)
  {
    if id in selected then
      FilterDistinct(selected, (x: Id) => x != id);
      Filter(selected, (x: Id) => x != id)
    else selected + [id]
  }

  /** Toggling twice restores the membership of every id. */
  lemma ToggleTwice(selected: seq<Id>, id: Id)
    requires Distinct(selected)
    ensures forall x :: x in Toggled(Toggled(selected, id), id) <==> x in selected
  {
    var once := Toggled(selected, id);
    assert id in once <==> id !in selected;
  }

  /** Filtering a list whose ids are distinct leaves ids that are distinct. */
  lemma {:induction false} FilteredIdsDistinct(events: seq<Enriched>, keep: Enriched -> bool)
    ensures Distinct(Ids(events)) ==> Distinct(Ids(Filter(events, keep)))
  {
    if events != [] && Distinct(Ids(events)) {
      var init := events[..|events| - 1];
      var last := events[|events| - 1];
      assert Ids(init) == Ids(events)[..|events| - 1];
      FilteredIdsDistinct(init, keep);
      var kept := Filter(init, keep);
      if keep(last) {
        assert last.id !in Ids(kept) by {
          forall k | 0 <= k < |kept|
            ensures Ids(kept)[k] != last.id
          {
            assert kept[k] in init;
            var a :| 0 <= a < |init| && init[a] == kept[k];
            assert Ids(events)[a] == kept[k].id;
          }
        }
        assert Ids(kept + [last]) == Ids(kept) + [last.id];
      }
    }
  }

  /** The label of the select-all button, which counts the visible events. */
  function SelectLabel(selected: seq<Id>, visible: seq<Enriched>): (text: string)
    ensures text == "Deselect All" <==> |selected| == |visible|
    ensures text == "Select All" <==> |selected| != |visible|
  {
    if |selected| == |visible| then "Deselect All" else "Select All"
  }

  /** `toggleAll` as written: it compares the selection with all events, not
      with the visible ones the button label counts, and selects every
      event, filtered out or not. */
  function ToggleAllAsWritten(selected: seq<Id>, events: seq<Enriched>): (r: seq<Id>)
    ensures |selected| == |events| ==> r == []
    ensures |selected| != |events| ==> r == Ids(events)
  {
    if |selected| == |events| then [] else Ids(events)
  }

  /** With a filter on, the button reads "Deselect All" and clicking it
      selects every event, including the one the filter hides. */
  lemma ToggleAllContradictsLabel()
    ensures var shown := Enriched("a", "Quiz", "", "Music", 0, "The Bull", "Romiley");
            var hidden := Enriched("b", "Bingo", "", "Games", 0, "The Bull", "Romiley");
            && SelectLabel(["a"], [shown]) == "Deselect All"
            && ToggleAllAsWritten(["a"], [shown, hidden]) == ["a", "b"]
  {
    var shown := Enriched("a", "Quiz", "", "Music", 0, "The Bull", "Romiley");
    var hidden := Enriched("b", "Bingo", "", "Games", 0, "The Bull", "Romiley");
    assert Ids([shown, hidden]) == ["a", "b"];
  }

  /** `toggleAll` as evidently intended: the visible events against the
      button's own count. */
  function ToggleAll(selected: seq<Id>, visible: seq<Enriched>): (r: seq<Id>)
    requires Distinct(Ids(visible))
    ensures Distinct(r)
    ensures SelectLabel(selected, visible) == "Deselect All" ==> r == []
    ensures SelectLabel(selected, visible) == "Select All" ==>
      (forall x :: x in r <==> x in Ids(visible)) && SelectLabel(r, visible) == "Deselect All"
  {
    if |selected| == |visible| then [] else Ids(visible)
  }

  /** `filteredEvents`: each filter is off or matches; the month compares the
      `YYYY-MM` key of the event's date. */
  predicate Shown(e: Enriched, month: string, category: string, venue: string) {
    && (month == AllValues || MonthKeyOf(e.date) == month)
    && (category == AllValues || e.category == category)
    && (venue == AllValues || e.venueName == venue)
  }

  /** The events whose ids are selected, in the order of `events`. */
  function Selection(events: seq<Enriched>, selected: seq<Id>): (chosen: seq<Enriched>)
    ensures forall e :: e in chosen <==> e in events && e.id in selected
    ensures IsSubsequence(chosen, events)
  {
    FilterSubsequence(events, (e: Enriched) => e.id in selected);
    Filter(events, (e: Enriched) => e.id in selected)
  }

  /** The order in which events were ticked does not matter: two selections
      with the same members select the same list. */
  lemma SelectionOrderIrrelevant(events: seq<Enriched>, a: seq<Id>, b: seq<Id>)
    requires forall x :: x in a <==> x in b
    ensures Selection(events, a) == Selection(events, b)
  {
    FilterAgrees(events, (e: Enriched) => e.id in a, (e: Enriched) => e.id in b);
  }

  /** With every filter off, the whole list shows. */
  lemma AllFiltersOff(events: seq<Enriched>)
    ensures Filter(events, (e: Enriched) => Shown(e, AllValues, AllValues, AllValues)) == events
  {
    FilterAll(events, (e: Enriched) => Shown(e, AllValues, AllValues, AllValues));
  }

  /** Strict lexicographic order on strings, as the default `sort` compares them. */
  predicate Less(a: string, b: string) {
    if a == [] then b != []
    else if b == [] then false
    else if a[0] != b[0] then a[0] < b[0]
    else Less(a[1..], b[1..])
  }

  lemma {:induction false} LessIrreflexive(a: string)
    ensures !Less(a, a)
  {
    if a != [] {
      LessIrreflexive(a[1..]);
    }
  }

  lemma {:induction false} LessTransitive(a: string, b: string, c: string)
    requires Less(a, b) && Less(b, c)
    ensures Less(a, c)
  {
    if a != [] && a[0] == b[0] && b[0] == c[0] {
      LessTransitive(a[1..], b[1..], c[1..]);
    }
  }

  lemma {:induction false} LessTotal(a: string, b: string)
    requires a != b
    ensures Less(a, b) || Less(b, a)
  {
    if a != [] && b != [] && a[0] == b[0] {
      assert a[1..] != b[1..] by {
        assert a == [a[0]] + a[1..] && b == [b[0]] + b[1..];
      }
      LessTotal(a[1..], b[1..]);
    }
  }

  predicate StrictlySorted(s: seq<string>) {
    forall i, j :: 0 <= i < j < |s| ==> Less(s[i], s[j])
  }

  /** A strictly sorted list holds each value once. */
  lemma SortedIsDistinct(s: seq<string>)
    requires StrictlySorted(s)
    ensures Distinct(s)
  {
    forall i, j | 0 <= i < j < |s|
      ensures s[i] != s[j]
    {
      LessIrreflexive(s[i]);
    }
  }

  /** Inserting a value into a strictly sorted list. */
  function Insert(x: string, s: seq<string>): (r: seq<string>)
    requires StrictlySorted(s)
    ensures StrictlySorted(r)
    ensures forall y :: y in r <==> y == x || y in s
  {
    if s == [] then [x]
    else if x == s[0] then s
    else if Less(x, s[0]) then
      assert forall j :: 0 < j < |s| ==> Less(x, s[j]) by {
        forall j | 0 < j < |s|
          ensures Less(x, s[j])
        {
          LessTransitive(x, s[0], s[j]);
        }
      }
      [x] + s
    else
      LessTotal(x, s[0]);
      var tail := Insert(x, s[1..]);
      assert forall y :: y in tail ==> Less(s[0], y) by {
        forall y | y in tail
          ensures Less(s[0], y)
        {
          if y != x {
            var j :| 0 <= j < |s[1..]| && s[1..][j] == y;
            assert s[j + 1] == y;
          }
        }
      }
      [s[0]] + tail
  }

  /** `Array.from(new Set(values)).sort()`: each value once, in order. */
  function SortedUnique(values: seq<string>): (r: seq<string>)
    ensures StrictlySorted(r)
    ensures forall y :: y in r <==> y in values
  {
    if values == [] then []
    else Insert(values[|values| - 1], SortedUnique(values[..|values| - 1]))
  }

  /** Lists of the same values are empty together. */
  lemma SameValuesEmptyTogether(a: seq<string>, b: seq<string>)
    requires forall y :: y in a <==> y in b
    ensures a == [] <==> b == []
  {
    if a != [] {
      assert a[0] in b;
    }
    if b != [] {
      assert b[0] in a;
    }
  }

  /** Two strictly sorted lists of the same values are the same list, so the
      sorted unique list of a set of values is unique. */
  lemma {:induction false} SortedUniqueIsCanonical(a: seq<string>, b: seq<string>)
    requires StrictlySorted(a) && StrictlySorted(b)
    requires forall y :: y in a <==> y in b
    ensures a == b
    decreases |a|
  {
    SameValuesEmptyTogether(a, b);
    if a != [] {
      assert a[0] == b[0] by {
        assert a[0] in b && b[0] in a;
        var i :| 0 <= i < |a| && a[i] == b[0];
        var j :| 0 <= j < |b| && b[j] == a[0];
        if j != 0 && i != 0 {
          LessTransitive(a[0], b[0], a[0]);
          LessIrreflexive(a[0]);
        }
      }
      forall y
        ensures y in a[1..] <==> y in b[1..]
      {
        if y in a[1..] {
          var i :| 1 <= i < |a| && a[i] == y;
          LessIrreflexive(a[0]);
          assert y in b && y != b[0];
        }
        if y in b[1..] {
          var j :| 1 <= j < |b| && b[j] == y;
          LessIrreflexive(b[0]);
          assert y in a && y != a[0];
        }
      }
      SortedUniqueIsCanonical(a[1..], b[1..]);
      assert a == [a[0]] + a[1..] && b == [b[0]] + b[1..];
    }
  }

  function Categories(events: seq<Enriched>): seq<string> {
    seq(|events|, i requires 0 <= i < |events| => events[i].category)
  }

  function VenueNames(events: seq<Enriched>): seq<string> {
    seq(|events|, i requires 0 <= i < |events| => events[i].venueName)
  }

  /** The month the `i`th option shows: `new Date(year, month0 + i, 1)`, as
      (year, month 1..12). */
  function MonthAt(year: int, month0: int, i: nat): (ym: (int, int))
    requires 0 <= month0 < 12
    ensures 1 <= ym.1 <= 12
  {
    (year + (month0 + i) / 12, (month0 + i) % 12 + 1)
  }

  /** The month after a (year, month 1..12). */
  function NextMonth(ym: (int, int)): (int, int) {
    if ym.1 == 12 then (ym.0 + 1, 1) else (ym.0, ym.1 + 1)
  }

  /** The options run over consecutive months, starting with the current one
      and rolling into the next year after December. */
  lemma MonthsConsecutive(year: int, month0: int, i: nat)
    requires 0 <= month0 < 12
    ensures MonthAt(year, month0, 0) == (year, month0 + 1)
    ensures MonthAt(year, month0, i + 1) == NextMonth(MonthAt(year, month0, i))
  {
    var k := month0 + i;
    if k % 12 == 11 {
      assert (k + 1) / 12 == k / 12 + 1 && (k + 1) % 12 == 0;
    } else {
      assert (k + 1) / 12 == k / 12 && (k + 1) % 12 == k % 12 + 1;
    }
  }

  /** The first `n` values of `f`, in order. */
  function Tabulate<T>(f: nat -> T, n: nat): (r: seq<T>)
    ensures |r| == n
  {
    if n == 0 then [] else Tabulate(f, n - 1) + [f(n - 1)]
  }

  /** The `i`-th entry of a table is the value at `i`. */
  lemma {:induction false} TabulateAt<T>(f: nat -> T, n: nat)
    ensures forall i :: 0 <= i < n ==> Tabulate(f, n)[i] == f(i)
  {
    if n > 0 {
      TabulateAt(f, n - 1);
      assert forall i :: 0 <= i < n - 1 ==> Tabulate(f, n)[i] == Tabulate(f, n - 1)[i];
    }
  }

  /** `monthOptions`: the `YYYY-MM` keys of twelve months from the current
      one (`now.getFullYear()` and the zero-based `now.getMonth()`). The
      localized labels are not modelled. */
  method MonthOptions(year: int, month0: int) returns (options: seq<string>)
    requires 0 <= month0 < 12
    ensures |options| == 12
    ensures forall i :: 0 <= i < 12 ==> options[i] == MonthKey(MonthAt(year, month0, i).0, MonthAt(year, month0, i).1)
  {
    var key := (i: nat) => MonthKey(MonthAt(year, month0, i).0, MonthAt(year, month0, i).1);
    options := [];
    for i := 0 to 12
      invariant options == Tabulate(key, i)
    {
      var d := MonthAt(year, month0, i);
      options := options + [MonthKey(d.0, d.1)];
    }
    TabulateAt(key, 12);
  }

  const PartyPopper: string := "\U{1F389}"
  const Calendar: string := "\U{1F5D3}"
  const Phone: string := "\U{1F4F2}"

  function SocialHeader(title: string, subtitle: string): string {
    PartyPopper + " " + title + ": " + subtitle + " " + PartyPopper + "\n\n"
  }

  /** One line per event: its day, title and venue. */
  function SocialLine(e: Enriched, dayLabel: Instant -> string): string {
    Calendar + " " + dayLabel(e.date) + ": " + e.title + " @ " + e.venueName + "\n"
  }

  const SocialFooter: string := "\n" + Phone + " Check the What's On in Romiley app for full details! #Romiley #WhatsOn"

  function SocialLines(events: seq<Enriched>, dayLabel: Instant -> string): string {
    if events == [] then ""
    else SocialLines(events[..|events| - 1], dayLabel) + SocialLine(events[|events| - 1], dayLabel)
  }

  /** One more event adds its line at the end. */
  lemma SocialLinesStep(events: seq<Enriched>, i: nat, dayLabel: Instant -> string)
    requires i < |events|
    ensures SocialLines(events[..i + 1], dayLabel) == SocialLines(events[..i], dayLabel) + SocialLine(events[i], dayLabel)
  {
    assert events[..i + 1][..i] == events[..i];
  }

  /** The lines of two runs of events are the lines of each, in order. */
  lemma {:induction false} SocialLinesAppend(a: seq<Enriched>, b: seq<Enriched>, dayLabel: Instant -> string)
    ensures SocialLines(a + b, dayLabel) == SocialLines(a, dayLabel) + SocialLines(b, dayLabel)
    decreases |b|
  {
    if b == [] {
      assert a + b == a;
    } else {
      var init, last := b[..|b| - 1], b[|b| - 1];
      assert (a + b)[..|a + b| - 1] == a + init && (a + b)[|a + b| - 1] == last;
      SocialLinesAppend(a, init, dayLabel);
      var line := SocialLine(last, dayLabel);
      calc {
        SocialLines(a + b, dayLabel);
        SocialLines(a + init, dayLabel) + line;
        SocialLines(a, dayLabel) + SocialLines(init, dayLabel) + line;
        SocialLines(a, dayLabel) + (SocialLines(init, dayLabel) + line);
      }
    }
  }

  /** The dashboard's state. `events` is the page's data; the rest is state
      the handlers replace. */
  class Board {
    const events: seq<Enriched>
    var selected: seq<Id>
    var month: string
    var category: string
    var venue: string
    var titleText: string
    var subtitleText: string
    var deleting: bool

    ghost predicate Valid()
      reads this
    {
      Distinct(Ids(events)) && Distinct(selected)
    }

    constructor (events: seq<Enriched>)
      requires Distinct(Ids(events))
      ensures Valid() && this.events == events
      ensures selected == [] && month == AllValues && category == AllValues && venue == AllValues
      ensures titleText == "What's On in Romiley" && subtitleText == "This Week" && !deleting
    {
      this.events := events;
      selected := [];
      month, category, venue := AllValues, AllValues, AllValues;
      titleText, subtitleText := "What's On in Romiley", "This Week";
      deleting := false;
    }

    /** `filteredEvents`. */
    function FilteredEvents(): (shown: seq<Enriched>)
      reads this
      ensures forall e :: e in shown <==> e in events && Shown(e, month, category, venue)
      ensures IsSubsequence(shown, events)
      ensures Distinct(Ids(events)) ==> Distinct(Ids(shown))
    {
      var m, c, v := month, category, venue;
      FilteredIdsDistinct(events, (e: Enriched) => Shown(e, m, c, v));
      FilterSubsequence(events, (e: Enriched) => Shown(e, m, c, v));
      Filter(events, (e: Enriched) => Shown(e, m, c, v))
    }

    /** `uniqueCategories` and `uniqueVenues`. */
    function UniqueCategories(): (r: seq<string>)
      reads this
      ensures StrictlySorted(r) && forall c :: c in r <==> exists e :: e in events && e.category == c
    {
      var all := Categories(events);
      assert forall c :: c in all <==> exists e :: e in events && e.category == c by {
        forall c | c in all
          ensures exists e :: e in events && e.category == c
        {
          var i :| 0 <= i < |all| && all[i] == c;
          assert events[i] in events;
        }
        forall e | e in events
          ensures e.category in all
        {
          var i :| 0 <= i < |events| && events[i] == e;
          assert all[i] == e.category;
        }
      }
      SortedUnique(all)
    }

    function UniqueVenues(): (r: seq<string>)
      reads this
      ensures StrictlySorted(r) && forall v :: v in r <==> exists e :: e in events && e.venueName == v
    {
      var all := VenueNames(events);
      assert forall v :: v in all <==> exists e :: e in events && e.venueName == v by {
        forall v | v in all
          ensures exists e :: e in events && e.venueName == v
        {
          var i :| 0 <= i < |all| && all[i] == v;
          assert events[i] in events;
        }
        forall e | e in events
          ensures e.venueName in all
        {
          var i :| 0 <= i < |events| && events[i] == e;
          assert all[i] == e.venueName;
        }
      }
      SortedUnique(all)
    }

    /** `selectedEvents`: in the order of the event list, not of selection. */
    function SelectedEvents(): (chosen: seq<Enriched>)
      reads this
      ensures forall e :: e in chosen <==> e in events && e.id in selected
      ensures IsSubsequence(chosen, events)
    {
      Selection(events, selected)
    }

    method ToggleEvent(id: Id)
      requires Valid()
      modifies this`selected
      ensures Valid()
      ensures selected == Toggled(old(selected), id)
    {
      selected := Toggled(selected, id);
    }

    /** The select-all handler as the screen runs it: measured against, and
        selecting, every event, whatever the filters show. */
    method ToggleAllEvents()
      requires Valid()
      modifies this`selected
      ensures Valid()
      ensures selected == ToggleAllAsWritten(old(selected), events)
    {
      selected := ToggleAllAsWritten(selected, events);
    }

    /** The select-all button, with the corrected comparison. */
    method ToggleAllVisible()
      requires Valid()
      modifies this`selected
      ensures Valid()
      ensures selected == ToggleAll(old(selected), FilteredEvents())
    {
      var visible := FilteredEvents();
      selected := ToggleAll(selected, visible);
    }

    method ClearFilters()
      modifies this`month, this`category, this`venue
      ensures month == AllValues && category == AllValues && venue == AllValues
    {
      month, category, venue := AllValues, AllValues, AllValues;
    }

    /** `handleBulkDelete`: once confirmed, the selected ids go to
        `deleteEventsAsAdmin` and the selection is cleared when it returns,
        whether or not the action refused the caller. */
    method BulkDelete(store: RecordStore, cookies: map<string, Cookie>, confirmed: bool) returns (r: Option<ActionResult>)
      requires Valid() && store.Valid()
      modifies this`selected, this`deleting, store`events
      ensures Valid() && store.Valid()
      ensures !confirmed ==> r.None? && selected == old(selected) && store.events == old(store.events)
      ensures confirmed ==> r.Some? && selected == [] && deleting
      ensures confirmed && HasPlatformCookie(cookies) ==>
        store.events == Remaining(old(store.events), old(selected), None)
      ensures confirmed && !HasPlatformCookie(cookies) ==> store.events == old(store.events)
    {
      if !confirmed {
        return None;
      }
      deleting := true;
      var result := DeleteEventsAsAdmin(store, cookies, selected);
      selected := [];
      r := Some(result);
    }

    /** `generateSocialText`: empty without a selection; otherwise the header,
        one line per selected event in list order, and the footer. The
        day's localized label is `dayLabel`. */
    method GenerateSocialText(dayLabel: Instant -> string) returns (text: string)
      ensures SelectedEvents() == [] ==> text == ""
      ensures SelectedEvents() != [] ==>
        text == SocialHeader(titleText, subtitleText) + SocialLines(SelectedEvents(), dayLabel) + SocialFooter
    {
      var chosen := SelectedEvents();
      if |chosen| == 0 {
        return "";
      }
      var header := SocialHeader(titleText, subtitleText);
      text := header;
      for i := 0 to |chosen|
        invariant text == header + SocialLines(chosen[..i], dayLabel)
      {
        SocialLinesStep(chosen, i, dayLabel);
        text := text + SocialLine(chosen[i], dayLabel);
      }
      assert chosen[..|chosen|] == chosen;
      text := text + SocialFooter;
    }
  }
}
