/** The media library's server actions (src/app/actions/media.ts): listing
    uploads newest first, removing one upload with its file, and relabelling. */
module MediaActions {
  import opened Common
  import opened Store

  /** No two records share a creation time, so "newest first" is a total order. */
  ghost predicate DistinctStamps(ms: map<Id, Media>) {
    forall a, b :: a in ms && b in ms && a != b ==> ms[a].created != ms[b].created
  }

  /** The store's keys make creation times distinct. */
  lemma StoreStampsDistinct(ms: map<Id, Media>, clock: nat)
    requires MediaKeys(ms, clock)
    ensures DistinctStamps(ms)
  {
    forall a, b | a in ms && b in ms && ms[a].created == ms[b].created
      ensures a == b
    {
      assert a == IdAt(ms[a].created) && b == IdAt(ms[b].created);
    }
  }

  /** `orderBy: { createdAt: 'desc' }`. */
  predicate NewestFirstOrder(s: seq<Media>) {
    forall i, j :: 0 <= i < j < |s| ==> s[i].created > s[j].created
  }

  /** A non-empty table has a newest record. */
  lemma {:induction false} NewestExists(ms: map<Id, Media>)
    requires ms != map[]
    ensures exists k :: k in ms && forall o :: o in ms ==> ms[o].created <= ms[k].created
    decreases |ms|
  {
    var k0 :| k0 in ms;
    var rest := ms - {k0};
    assert rest.Keys == ms.Keys - {k0};
    if rest == map[] {
      forall o | o in ms
        ensures ms[o].created <= ms[k0].created
      {
        assert o !in rest;
      }
    } else {
      NewestExists(rest);
      var k1 :| k1 in rest && forall o :: o in rest ==> rest[o].created <= rest[k1].created;
      var top := if ms[k0].created <= ms[k1].created then k1 else k0;
      forall o | o in ms
        ensures ms[o].created <= ms[top].created
      {
        if o != k0 {
          assert o in rest;
        }
      }
    }
  }

  /** Taking the newest record off a table: the rest is one smaller, holds
      the other records, all of them older. */
  lemma TakeNewest(ms: map<Id, Media>, k: Id)
    requires DistinctStamps(ms) && k in ms
    requires forall o :: o in ms ==> ms[o].created <= ms[k].created
    ensures DistinctStamps(ms - {k}) && |ms - {k}| == |ms| - 1
    ensures forall m :: m in ms.Values <==> m == ms[k] || m in (ms - {k}).Values
    ensures forall m :: m in (ms - {k}).Values ==> m.created < ms[k].created
  {
    var rest := ms - {k};
    assert rest.Keys == ms.Keys - {k};
    forall m | m in ms.Values
      ensures m == ms[k] || m in rest.Values
    {
      var o :| o in ms && ms[o] == m;
      if o != k {
        assert o in rest;
      }
    }
    forall m | m in rest.Values
      ensures m.created < ms[k].created && m in ms.Values
    {
      var o :| o in rest && rest[o] == m;
      assert o in ms && o != k;
    }
  }

  /** Putting a newer item in front of a newest-first listing keeps it newest first. */
  lemma PrependNewer(x: Media, s: seq<Media>)
    requires NewestFirstOrder(s)
    requires forall m :: m in s ==> m.created < x.created
    ensures NewestFirstOrder([x] + s)
  {
    var r := [x] + s;
    forall i, j | 0 <= i < j < |r|
      ensures r[i].created > r[j].created
    {
      assert r[j] == s[j - 1];
      if i > 0 {
        assert r[i] == s[i - 1];
      }
    }
  }

  /** The records of a table, newest first. */
  ghost function NewestFirst(ms: map<Id, Media>): (r: seq<Media>)
    requires DistinctStamps(ms)
    ensures |r| == |ms|
    ensures forall m :: m in r <==> m in ms.Values
    ensures NewestFirstOrder(r)
    decreases |ms|
  {
    if ms == map[] then []
    else
      NewestExists(ms);
      var k :| k in ms && forall o :: o in ms ==> ms[o].created <= ms[k].created;
      TakeNewest(ms, k);
      var rest := NewestFirst(ms - {k});
      PrependNewer(ms[k], rest);
      [ms[k]] + rest
  }

  /** `where: { type }`. */
  function OfType(ms: map<Id, Media>, kind: string): (sub: map<Id, Media>)
    ensures forall k :: k in sub <==> k in ms && ms[k].kind == kind
    ensures forall k :: k in sub ==> sub[k] == ms[k]
  {
    map k | k in ms && ms[k].kind == kind :: ms[k]
  }

  /** `getAllMedia`: every record, newest first. */
  ghost function AllMedia(ms: map<Id, Media>): (r: seq<Media>)
    requires DistinctStamps(ms)
    ensures forall m :: m in r <==> m in ms.Values
    ensures NewestFirstOrder(r) && |r| == |ms|
  {
    NewestFirst(ms)
  }

  /** `getMediaByType`: exactly the records of that type, newest first. */
  ghost function MediaByType(ms: map<Id, Media>, kind: string): (r: seq<Media>)
    requires DistinctStamps(ms)
    ensures forall m :: m in r <==> m in ms.Values && m.kind == kind
    ensures NewestFirstOrder(r)
  {
    var sub := OfType(ms, kind);
    assert forall m :: m in sub.Values <==> m in ms.Values && m.kind == kind by {
      forall m | m in ms.Values && m.kind == kind
        ensures m in sub.Values
      {
        var o :| o in ms && ms[o] == m;
        assert sub[o] == m;
      }
    }
    NewestFirst(sub)
  }

  /** The first item of a listing is listed. */
  lemma HeadListed(s: seq<Media>)
    requires s != []
    ensures s[0] in s
  {
  }

  /** Every item of a newest-first listing is its head or strictly older
      than the head, and in the latter case sits in its tail. */
  lemma HeadIsNewest(s: seq<Media>, m: Media)
    requires NewestFirstOrder(s) && m in s
    ensures m == s[0] || (m.created < s[0].created && m in s[1..])
  {
    var i :| 0 <= i < |s| && s[i] == m;
    if i > 0 {
      assert s[1..][i - 1] == m;
    }
  }

  /** Two newest-first listings of the same records are the same listing. */
  lemma {:induction false} NewestFirstUnique(a: seq<Media>, b: seq<Media>)
    requires NewestFirstOrder(a) && NewestFirstOrder(b)
    requires forall m :: m in a <==> m in b
    ensures a == b
    decreases |a|
  {
    if a != [] && b != [] {
      assert a[0] in a && b[0] in b;
      HeadIsNewest(a, b[0]);
      HeadIsNewest(b, a[0]);
      forall m
        ensures m in a[1..] <==> m in b[1..]
      {
        if m in a[1..] {
          HeadIsNewest(a, m);
          HeadIsNewest(b, m);
        }
        if m in b[1..] {
          HeadIsNewest(a, m);
          HeadIsNewest(b, m);
        }
      }
      NewestFirstUnique(a[1..], b[1..]);
      assert a == [a[0]] + a[1..] && b == [b[0]] + b[1..];
    } else if a != [] {
      HeadListed(a);
      assert false;
    } else if b != [] {
      HeadListed(b);
      assert false;
    }
  }

  /** The items of a listing with the given type, in listing order. */
  function KeepType(s: seq<Media>, kind: string): (r: seq<Media>)
    ensures forall m :: m in r <==> m in s && m.kind == kind
  {
    if s == [] then []
    else if s[0].kind == kind then [s[0]] + KeepType(s[1..], kind)
    else KeepType(s[1..], kind)
  }

  /** Filtering keeps a newest-first listing newest first. */
  lemma {:induction false} KeepTypeOrdered(s: seq<Media>, kind: string)
    requires NewestFirstOrder(s)
    ensures NewestFirstOrder(KeepType(s, kind))
  {
    if s != [] {
      KeepTypeOrdered(s[1..], kind);
      var tail := KeepType(s[1..], kind);
      assert forall m :: m in tail ==> m.created < s[0].created by {
        forall m | m in tail
          ensures m.created < s[0].created
        {
          var i :| 0 <= i < |s[1..]| && s[1..][i] == m;
          assert s[i + 1] == m;
        }
      }
      if s[0].kind == kind {
        PrependNewer(s[0], tail);
      }
    }
  }

  /** `getMediaByType(t)` lists exactly what `getAllMedia()` lists, restricted
      to type `t`, in the same order. */
  lemma ByTypeIsFilteredAll(ms: map<Id, Media>, kind: string)
    requires DistinctStamps(ms)
    ensures MediaByType(ms, kind) == KeepType(AllMedia(ms), kind)
  {
    KeepTypeOrdered(AllMedia(ms), kind);
    NewestFirstUnique(MediaByType(ms, kind), KeepType(AllMedia(ms), kind));
  }

  /** `deleteMedia`. A missing record throws "Media not found" with nothing
      changed. Otherwise the file is deleted from the blob store first and the
      record second: when the blob store fails (`blobFails`) the action throws
      and the record stays. Only that record and that file go. */
  method DeleteMedia(store: RecordStore, id: Id, blobFails: bool) returns (r: ActionResult)
    requires store.Valid()
    modifies store`media, store`blobs
    ensures store.Valid()
    ensures r.Thrown? <==> id !in old(store.media) || blobFails
    ensures r.Thrown? ==> store.media == old(store.media) && store.blobs == old(store.blobs)
    ensures !r.Thrown? ==>
      && r == Success
      && store.media == old(store.media) - {id}
      && store.blobs == old(store.blobs) - {old(store.media)[id].url}
  {
    if id !in store.media {
      return Thrown;
    }
    if blobFails {
      return Thrown;
    }
    store.DeleteBlob(store.media[id].url);
    var ok := store.DeleteMedia(id);
    r := Success;
  }

  /** `updateMediaLabel`: only that record's label changes; a missing record
      makes the store's update throw. */
  method UpdateMediaLabel(store: RecordStore, id: Id, text: string) returns (r: ActionResult)
    requires store.Valid()
    modifies store`media
    ensures store.Valid()
    ensures r.Thrown? <==> id !in old(store.media)
    ensures r.Thrown? ==> store.media == old(store.media)
    ensures !r.Thrown? ==> r == Success && store.media == old(store.media)[id := old(store.media)[id].(labelText := Some(text))]
  {
    var ok := store.SetMediaLabel(id, text);
    r := if ok then Success else Thrown;
  }
}
