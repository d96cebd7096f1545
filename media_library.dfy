/** The platform media library page (src/app/platform/media/client.tsx): the
    list of media the page holds, the type filter and the id being deleted,
    replaced by the upload and delete handlers. */
module MediaLibrary {
  import opened Common
  import opened Store
  import opened MediaActions

  /** The filter value that shows every type. */
  const AllTypes: string := "all"

  /** The four types an upload can be given. */
  const Kinds: seq<string> := ["background", "venue", "event", "general"]

  /** Keeping one type distributes over concatenation, so the filter keeps
      the list's order. */
  lemma {:induction false} KeepTypeAppend(a: seq<Media>, b: seq<Media>, kind: string)
    ensures KeepType(a + b, kind) == KeepType(a, kind) + KeepType(b, kind)
    decreases |a|
  {
    if a != [] {
      assert (a + b)[0] == a[0] && (a + b)[1..] == a[1..] + b;
      KeepTypeAppend(a[1..], b, kind);
    } else {
      assert a + b == b;
    }
  }

  /** The button counts: the list length for "all", the items of the type
      otherwise. */
  function Count(media: seq<Media>, kind: string): (n: nat)
    ensures n <= |media|
    ensures kind == AllTypes ==> n == |media|
    ensures kind != AllTypes ==> n == multiset(KindsOf(media))[kind]
  {
    KeepTypeShorter(media, kind);
    KeepTypeCounts(media, kind);
    if kind == AllTypes then |media| else |KeepType(media, kind)|
  }

  /** The type of each item, in list order. */
  function KindsOf(media: seq<Media>): (ks: seq<string>)
    ensures |ks| == |media| && forall i :: 0 <= i < |media| ==> ks[i] == media[i].kind
  {
    seq(|media|, i requires 0 <= i < |media| => media[i].kind)
  }

  /** Keeping one type keeps exactly the items of that type. */
  lemma {:induction false} KeepTypeCounts(s: seq<Media>, kind: string)
    ensures |KeepType(s, kind)| == multiset(KindsOf(s))[kind]
  {
    if s != [] {
      KeepTypeCounts(s[1..], kind);
      assert KindsOf(s) == [s[0].kind] + KindsOf(s[1..]);
    }
  }

  lemma {:induction false} KeepTypeShorter(s: seq<Media>, kind: string)
    ensures |KeepType(s, kind)| <= |s|
  {
    if s != [] {
      KeepTypeShorter(s[1..], kind);
    }
  }

  /** When every item has one of the four upload types, the four type
      counts add up to the "all" count. */
  lemma {:induction false} CountsAddUp(media: seq<Media>)
    requires forall m :: m in media ==> m.kind in Kinds
    ensures Count(media, "background") + Count(media, "venue") + Count(media, "event") + Count(media, "general")
            == Count(media, AllTypes)
  {
    KeptTypesAddUp(media);
  }

  lemma {:induction false} KeptTypesAddUp(media: seq<Media>)
    requires forall m :: m in media ==> m.kind in Kinds
    ensures |KeepType(media, "background")| + |KeepType(media, "venue")| + |KeepType(media, "event")|
            + |KeepType(media, "general")| == |media|
  {
    if media != [] {
      assert media[0] in media;
      KeptTypesAddUp(media[1..]);
    }
  }

  /** The rendered size: whole bytes below 1024, kilobytes below 1024 * 1024,
      megabytes above. The one-decimal figures of the larger units are not
      modelled, only the unit chosen and the byte count behind it. */
  datatype SizeLabel = Exact(text: string) | KiloBytes(bytes: nat) | MegaBytes(bytes: nat)

  const KiB: nat := 1024
  const MiB: nat := 1024 * 1024

  function FormatBytes(bytes: nat): (r: SizeLabel)
    ensures r.Exact? <==> bytes < KiB
    ensures r.KiloBytes? <==> KiB <= bytes < MiB
    ensures r.MegaBytes? <==> MiB <= bytes
    ensures r.Exact? ==> |r.text| >= 3 && r.text[|r.text| - 2..] == " B"
    ensures !r.Exact? ==> r.bytes == bytes
  {
    if bytes < KiB then Exact(NatToString(bytes) + " B")
    else if bytes < MiB then KiloBytes(bytes)
    else MegaBytes(bytes)
  }

  /** The byte count reads back from the exact rendering. */
  lemma ExactReadsBack(bytes: nat)
    requires bytes < KiB
    ensures var t := FormatBytes(bytes).text;
            (forall i :: 0 <= i < |t| - 2 ==> IsDigit(t[i])) && DigitsValue(t[..|t| - 2]) == bytes
  {
    var t := FormatBytes(bytes).text;
    assert t[..|t| - 2] == NatToString(bytes);
    NatToStringValue(bytes);
  }

  class Library {
    var media: seq<Media>
    var filterType: string
    var deletingId: Option<Id>

    constructor (initial: seq<Media>)
      ensures media == initial && filterType == AllTypes && deletingId == None
    {
      media := initial;
      filterType := AllTypes;
      deletingId := None;
    }

    /** `filtered`: everything for "all", else the items of that type in
        list order. */
    function Filtered(): (shown: seq<Media>)
      reads this
      ensures filterType == AllTypes ==> shown == media
      ensures forall m :: m in shown <==> m in media && (filterType == AllTypes || m.kind == filterType)
      ensures |shown| == Count(media, filterType)
    {
      if filterType == AllTypes then media else KeepType(media, filterType)
    }

    method SetFilter(kind: string)
      modifies this`filterType
      ensures filterType == kind
    {
      filterType := kind;
    }

    /** `handleUploaded`: the new item goes first, the rest keep their order;
        under the current filter it shows first when its type matches. */
    method HandleUploaded(m: Media)
      modifies this`media
      ensures media == [m] + old(media)
      ensures filterType != AllTypes ==> Filtered() == KeepType([m], filterType) + old(Filtered())
    {
      media := [m] + media;
      if filterType != AllTypes {
        KeepTypeAppend([m], old(media), filterType);
      }
    }

    /** `handleDelete` once confirmed: `deletingId` holds the id while
        `deleteMedia` runs; the item leaves the list only when it succeeds,
        and `deletingId` is cleared either way. */
    method HandleDelete(store: RecordStore, id: Id, blobFails: bool) returns (r: ActionResult)
      requires store.Valid()
      modifies this`media, this`deletingId, store`media, store`blobs
      ensures store.Valid()
      ensures deletingId == None
      ensures r.Thrown? ==> media == old(media) && store.media == old(store.media)
      ensures !r.Thrown? ==> media == Filter(old(media), (m: Media) => m.id != id)
                             && store.media == old(store.media) - {id}
      ensures forall m :: m in media <==> m in old(media) && (r.Thrown? || m.id != id)
    {
      deletingId := Some(id);
      r := DeleteMedia(store, id, blobFails);
      if !r.Thrown? {
        media := Filter(media, (m: Media) => m.id != id);
      }
      deletingId := None;
    }
  }
}
