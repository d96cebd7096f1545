/** The image upload endpoint (src/app/api/upload/route.ts): the file is
    checked, stored in the blob store and described by a media record. The
    blob store's `put` is the parameter `put`, from pathname to public url;
    `Date.now()` is `now`; `blobFails` stands for `put` throwing. */
module Upload {
  import opened Common
  import opened DateTime
  import opened Store

  /** The uploaded `File`: its name, mime type and size in bytes. */
  datatype File = File(name: string, mimeType: string, size: nat)

  /** 10 MiB. */
  const MaxSize: nat := 10 * 1024 * 1024

  /** The validation chain; none when the file is acceptable. */
  function Rejection(file: Option<File>): (e: Option<string>)
    ensures e.None? <==> file.Some? && StartsWith(file.value.mimeType, "image/") && file.value.size <= MaxSize
    ensures file.None? ==> e == Some("No file provided")
    ensures file.Some? && !StartsWith(file.value.mimeType, "image/") ==> e == Some("Only image files are allowed")
    ensures file.Some? && StartsWith(file.value.mimeType, "image/") && file.value.size > MaxSize ==>
      e == Some("File too large. Maximum size is 10MB.")
  {
    if file.None? then Some("No file provided")
    else if !StartsWith(file.value.mimeType, "image/") then Some("Only image files are allowed")
    else if file.value.size > MaxSize then Some("File too large. Maximum size is 10MB.")
    else None
  }

  /** The boundary: exactly 10 MiB passes, one byte more does not. */
  lemma SizeBoundary(name: string, mimeType: string)
    requires StartsWith(mimeType, "image/")
    ensures Rejection(Some(File(name, mimeType, MaxSize))).None?
    ensures Rejection(Some(File(name, mimeType, MaxSize + 1))) == Some("File too large. Maximum size is 10MB.")
  {
  }

  /** `formData.get('type') || 'general'`. */
  function KindOf(field: Option<string>): (kind: string)
    ensures Truthy(field) ==> kind == field.value
    ensures !Truthy(field) ==> kind == "general"
  {
    OrElse(field, Some("general")).value
  }

  /** `formData.get('label') || null`. */
  function LabelOf(field: Option<string>): (labelText: Option<string>)
    ensures labelText.Some? <==> Truthy(field)
    ensures labelText.Some? ==> labelText == field
  {
    if Truthy(field) then field else None
  }

  /** The blob pathname `media/<type>/<now>-<file name>`. */
  function BlobPath(kind: string, now: Instant, name: string): (path: string)
    ensures StartsWith(path, "media/" + kind + "/")
  {
    "media/" + kind + "/" + IntToString(now) + "-" + name
  }

  datatype Response = BadRequest(error: string) | Stored(media: Media) | UploadFailed

  /** `POST`. A missing file, a non-image and a file over 10 MiB are refused
      with 400 before anything is stored. Otherwise the file goes to the blob
      store and one media record is created from the file's name, type and
      size, the blob's url, and the form's type and label (with their
      defaults). */
  method Post(store: RecordStore, file: Option<File>, kindField: Option<string>, labelField: Option<string>,
              now: Instant, put: string -> string, blobFails: bool) returns (response: Response)
    requires store.Valid()
    modifies store`media, store`clock, store`blobs
    ensures store.Valid()
    ensures Rejection(file).Some? ==> response == BadRequest(Rejection(file).value)
    ensures Rejection(file).None? && blobFails ==> response == UploadFailed
    ensures !response.Stored? ==>
      store.media == old(store.media) && store.blobs == old(store.blobs) && store.clock == old(store.clock)
    ensures response.Stored? <==> Rejection(file).None? && !blobFails
    ensures response.Stored? ==>
      var url := put(BlobPath(KindOf(kindField), now, file.value.name));
      && response.media == Media(response.media.id, url, file.value.name, file.value.mimeType, file.value.size,
                                 KindOf(kindField), LabelOf(labelField), old(store.clock))
      && response.media.id !in old(store.media)
      && store.media == old(store.media)[response.media.id := response.media]
      && store.blobs == old(store.blobs) + {url}
  {
    var kind := KindOf(kindField);
    var labelText := LabelOf(labelField);
    var problem := Rejection(file);
    if problem.Some? {
      return BadRequest(problem.value);
    }
    if blobFails {
      return UploadFailed;
    }
    var url := put(BlobPath(kind, now, file.value.name));
    store.PutBlob(url);
    var m := store.CreateMedia(url, file.value.name, file.value.mimeType, file.value.size, kind, labelText);
    response := Stored(m);
  }
}
