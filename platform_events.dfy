/** The platform administrator's event deletions
    (src/app/actions/platform-events.ts): one event by id, or every listed
    id across all venues. */
module PlatformEvents {
  import opened Common
  import opened Store
  import opened Cookies
  import opened EventActions

  /** `deleteEventAsAdmin`. Only the administrator may; it removes exactly
      that event, and reports the store's refusal of a missing id as "Failed". */
  method DeleteEventAsAdmin(store: RecordStore, cookies: map<string, Cookie>, id: Id) returns (r: ActionResult)
    requires store.Valid()
    modifies store`events
    ensures store.Valid()
    ensures !HasPlatformCookie(cookies) ==> r == Failure("Unauthorized") && store.events == old(store.events)
    ensures HasPlatformCookie(cookies) ==>
      store.events == old(store.events) - {id} &&
      (r == Success <==> id in old(store.events)) &&
      (r != Success ==> r == Failure("Failed"))
  {
    if !HasPlatformCookie(cookies) {
      return Failure("Unauthorized");
    }
    var ok := store.DeleteEvent(id);
    r := if ok then Success else Failure("Failed");
  }

  /** `deleteEventsAsAdmin`. Only the administrator may; it removes every
      event whose id is listed, whatever its venue, and nothing else. */
  method DeleteEventsAsAdmin(store: RecordStore, cookies: map<string, Cookie>, ids: seq<Id>) returns (r: ActionResult)
    requires store.Valid()
    modifies store`events
    ensures store.Valid()
    ensures !HasPlatformCookie(cookies) ==> r == Failure("Unauthorized") && store.events == old(store.events)
    ensures HasPlatformCookie(cookies) ==> r == Success && store.events == Remaining(old(store.events), ids, None)
  {
    if !HasPlatformCookie(cookies) {
      return Failure("Unauthorized");
    }
    store.DeleteEventsWhere((ev: Event) => Selected(ev, ids, None));
    r := Success;
  }

  /** With ids as keys, the administrator's bulk deletion removes exactly the
      listed keys. */
  lemma AdminRemovesListed(events: map<Id, Event>, ids: seq<Id>)
    requires forall e :: e in events ==> events[e].id == e
    ensures Remaining(events, ids, None) == events - set e | e in ids
  {
    var rest := Remaining(events, ids, None);
    assert rest.Keys == (events - set e | e in ids).Keys;
  }
}
