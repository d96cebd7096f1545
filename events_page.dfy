/** The public event listing (src/app/events/page.tsx): the query built from
    the search box and the category picker, the upcoming events it selects
    in date order with their venues, and the category options. */
module EventsPage {
  import opened Common
  import opened DateTime
  import opened Store

  /** The `where` object: the date bound, the text searched for and the
      category required, when present. */
  datatype Where = Where(from: Instant, text: Option<string>, category: Option<string>)

  /** Building `where`: the date bound always; the text search only for a
      non-empty `q`; the category only for a non-empty `category`. */
  method BuildWhere(q: Option<string>, category: Option<string>, now: Instant) returns (w: Where)
    ensures w.from == now
    ensures w.text.Some? <==> Truthy(q)
    ensures w.text.Some? ==> w.text == q
    ensures w.category.Some? <==> Truthy(category)
    ensures w.category.Some? ==> w.category == category
  {
    w := Where(now, None, None);
    if Truthy(q) {
      w := w.(text := q);
    }
    if Truthy(category) {
      w := w.(category := category);
    }
  }

  /** An event, with the name of its venue, satisfies the query. */
  predicate Selects(w: Where, ev: Event, venueName: string) {
    && ev.date >= w.from
    && (w.text.None? ||
        Contains(ev.title, w.text.value) || Contains(ev.description, w.text.value) ||
        Contains(venueName, w.text.value))
    && (w.category.None? || ev.category == w.category.value)
  }

  /** Without search text and category, the query keeps exactly the upcoming
      events; each filter only narrows it. */
  lemma FiltersNarrow(w: Where, ev: Event, venueName: string)
    ensures w.text.None? && w.category.None? ==> (Selects(w, ev, venueName) <==> ev.date >= w.from)
    ensures Selects(w, ev, venueName) ==> Selects(w.(text := None), ev, venueName)
    ensures Selects(w, ev, venueName) ==> Selects(w.(category := None), ev, venueName)
  {
  }

  /** The events the query keeps. */
  function Matching(events: map<Id, Event>, venues: map<Id, Venue>, w: Where): (sub: map<Id, Event>)
    requires EventsHaveVenues(venues, events)
    ensures forall e :: e in sub <==> e in events && Selects(w, events[e], venues[events[e].venueId].name)
    ensures forall e :: e in sub ==> sub[e] == events[e]
  {
    map e | e in events && Selects(w, events[e], venues[events[e].venueId].name) :: events[e]
  }

  /** `orderBy: { date: 'asc' }`; events on the same instant may come in any order. */
  predicate EarliestFirstOrder(s: seq<Event>) {
    forall i, j :: 0 <= i < j < |s| ==> s[i].date <= s[j].date
  }

  /** `k` holds an earliest event of the table. */
  ghost predicate IsEarliest(es: map<Id, Event>, k: Id) {
    k in es && forall o :: o in es ==> es[k].date <= es[o].date
  }

  /** A non-empty table has an earliest event. */
  lemma {:induction false} EarliestExists(es: map<Id, Event>)
    requires es != map[]
    ensures exists k :: IsEarliest(es, k)
    decreases |es|
  {
    var k0 :| k0 in es;
    var rest := es - {k0};
    assert rest.Keys == es.Keys - {k0};
    if rest == map[] {
      forall o | o in es
        ensures es[k0].date <= es[o].date
      {
        assert o !in rest;
      }
      assert IsEarliest(es, k0);
    } else {
      EarliestExists(rest);
      var k1 :| IsEarliest(rest, k1);
      var k := if es[k1].date <= es[k0].date then k1 else k0;
      forall o | o in es
        ensures es[k].date <= es[o].date
      {
        if o != k0 {
          assert o in rest;
        }
      }
      assert IsEarliest(es, k);
    }
  }

  /** Taking the earliest event off a table: one fewer, the others remain,
      none of them earlier. */
  lemma TakeEarliest(es: map<Id, Event>, k: Id)
    requires IsEarliest(es, k)
    ensures |es - {k}| == |es| - 1
    ensures forall ev :: ev in es.Values <==> ev == es[k] || ev in (es - {k}).Values
    ensures forall ev :: ev in (es - {k}).Values ==> es[k].date <= ev.date
  {
    var rest := es - {k};
    assert rest.Keys == es.Keys - {k};
    forall ev | ev in es.Values
      ensures ev == es[k] || ev in rest.Values
    {
      var o :| o in es && es[o] == ev;
      if o != k {
        assert o in rest;
      }
    }
    forall ev | ev in rest.Values
      ensures es[k].date <= ev.date && ev in es.Values
    {
      var o :| o in rest && rest[o] == ev;
      assert o in es;
    }
  }

  /** Putting an event no later than any other in front of a date-ordered
      listing keeps it in date order. */
  lemma PrependEarlier(x: Event, s: seq<Event>)
    requires EarliestFirstOrder(s)
    requires forall ev :: ev in s ==> x.date <= ev.date
    ensures EarliestFirstOrder([x] + s)
  {
    var r := [x] + s;
    forall i, j | 0 <= i < j < |r|
      ensures r[i].date <= r[j].date
    {
      assert r[j] == s[j - 1];
      if i > 0 {
        assert r[i] == s[i - 1];
      }
    }
  }

  /** The events of a table in date order. */
  ghost function EarliestFirst(es: map<Id, Event>): (r: seq<Event>)
    ensures |r| == |es|
    ensures forall ev :: ev in r <==> ev in es.Values
    ensures EarliestFirstOrder(r)
    decreases |es|
  {
    if es == map[] then []
    else
      EarliestExists(es);
      var k :| IsEarliest(es, k);
      TakeEarliest(es, k);
      var rest := EarliestFirst(es - {k});
      PrependEarlier(es[k], rest);
      [es[k]] + rest
  }

  /** The event is stored, its venue exists, and the query keeps it. */
  ghost predicate Listable(events: map<Id, Event>, venues: map<Id, Venue>, w: Where, ev: Event) {
    ev in events.Values && ev.venueId in venues && Selects(w, ev, venues[ev.venueId].name)
  }

  /** The matching table holds exactly the listable events. */
  lemma MatchingValues(events: map<Id, Event>, venues: map<Id, Venue>, w: Where)
    requires EventsHaveVenues(venues, events)
    ensures forall ev :: ev in Matching(events, venues, w).Values <==> Listable(events, venues, w, ev)
  {
    var sub := Matching(events, venues, w);
    forall ev
      ensures ev in sub.Values <==> Listable(events, venues, w, ev)
    {
      if ev in sub.Values {
        var o :| o in sub && sub[o] == ev;
        assert o in events && events[o] == ev;
      }
      if Listable(events, venues, w, ev) {
        var o :| o in events && events[o] == ev;
        assert o in sub && sub[o] == ev;
      }
    }
  }

  /** The page's query: exactly the listable events, in date order. */
  ghost function Search(events: map<Id, Event>, venues: map<Id, Venue>, w: Where): (r: seq<Event>)
    requires EventsHaveVenues(venues, events)
    ensures forall ev :: ev in r <==> Listable(events, venues, w, ev)
    ensures EarliestFirstOrder(r)
  {
    MatchingValues(events, venues, w);
    EarliestFirst(Matching(events, venues, w))
  }

  /** A listed event with its venue (`include: { venue: true }`). */
  datatype Listed = Listed(event: Event, venue: Venue)

  /** Each event paired with its venue. */
  function WithVenues(list: seq<Event>, venues: map<Id, Venue>): (r: seq<Listed>)
    requires forall ev :: ev in list ==> ev.venueId in venues
    ensures |r| == |list|
    ensures forall i :: 0 <= i < |r| ==> r[i] == Listed(list[i], venues[list[i].venueId])
  {
    seq(|list|, i requires 0 <= i < |list| => Listed(list[i], venues[list[i].venueId]))
  }

  /** Every listed event is upcoming and every stored upcoming event the query
      selects is listed. */
  lemma SearchComplete(events: map<Id, Event>, venues: map<Id, Venue>, w: Where, e: Id)
    requires EventsHaveVenues(venues, events) && e in events
    ensures events[e] in Search(events, venues, w) <==> Selects(w, events[e], venues[events[e].venueId].name)
    ensures forall ev :: ev in Search(events, venues, w) ==> ev.date >= w.from
  {
    assert events[e] in events.Values;
  }

  /** The category options: every category any event has, past ones included,
      each once. */
  function Categories(events: map<Id, Event>): (options: set<string>)
    ensures forall c :: c in options <==> exists e :: e in events && events[e].category == c
  {
    set e | e in events :: events[e].category
  }

  /** Every event listed for any query offers its category as an option. */
  lemma ListedCategoriesOffered(events: map<Id, Event>, venues: map<Id, Venue>, w: Where, i: nat)
    requires EventsHaveVenues(venues, events) && i < |Search(events, venues, w)|
    ensures Search(events, venues, w)[i].category in Categories(events)
  {
    var ev := Search(events, venues, w)[i];
    assert Listable(events, venues, w, ev);
    var o :| o in events && events[o] == ev;
  }
}
