/** The listing workflow: creating a listing with its photos as a sequence of backend calls with
    hand-written compensation, and the owner-only delete. `CreateListingSpec` and
    `DeleteListingSpec` say what one call does to the backend and what it answers; the methods
    perform the calls one by one and are proved to agree with them, and the lemmas below state
    the workflow's guarantees and its known gaps in terms of the two functions. */
module Listings {
  import opened Common
  import opened Store
  import opened StorageKeys

  const UserNotAuthenticated := "User not authenticated"
  const FailedToInsert := "Failed to insert listing"
  const ListingNotFound := "Listing not found"
  const NotYourListing := "You can only delete your own listings"

  /** `listingData`. `userId` and `imageUrl` stand for fields a caller may add; the workflow
      never copies them. */
  datatype ListingInput = ListingInput(
    title: Option<string>,
    description: Option<string>,
    price: Option<real>,
    currency: Option<string>,
    category: Option<string>,
    condition: Option<string>,
    userId: Option<string>,
    imageUrl: Option<string>)

  /** One of `imageFiles`; only its name matters to the workflow. */
  datatype ImageFile = ImageFile(name: Option<string>)

  /** What the clock and the backend do during one iteration of the photo loop: `Date.now()`,
      the upload, the `listing_images` insert, and the two compensating calls. */
  datatype ImageStep = ImageStep(now: nat, upload: Outcome, rowInsert: Outcome, removeFile: Outcome, rollback: Outcome)

  /** Everything outside the source that one `createListing` call consults. */
  datatype CreateEnv = CreateEnv(createdAt: string, insert: Outcome, steps: seq<ImageStep>, cover: Outcome, fetch: Outcome)

  /** The `listing` of a successful answer: the re-fetched row with its photos, or, when the
      re-fetch fails, the row as first inserted. */
  datatype Created = Fetched(listing: Listing, images: seq<ListingImage>) | AsInserted(listing: Listing)

  /** The skeleton row: owner forced to the session user, the six listing fields copied (`??`
      keeps `null`/`undefined` as null and every other value as is), no cover. */
  function InsertData(user: User, data: ListingInput, createdAt: string): ListingDraft {
    ListingDraft(user.id, data.title, data.description, data.price, data.currency, data.category, data.condition, createdAt)
  }

  /** `(file.name || '').split('.').pop()` */
  function FileExtension(f: ImageFile): string {
    Extension(if f.name.Some? then f.name.value else "")
  }

  /** The photos of one call, once the listing id is known. */
  datatype Batch = Batch(listingId: nat, owner: string, files: seq<ImageFile>, steps: seq<ImageStep>, publicUrl: string -> string)

  /** Storage key of photo `i`. */
  function Key(b: Batch, i: nat): string
    requires i < |b.files| && i < |b.steps|
  {
    ListingImageKey(b.listingId, b.owner, b.steps[i].now, i, FileExtension(b.files[i]))
  }

  /** `listing_images` row of photo `i`. */
  function Row(b: Batch, i: nat): ListingImage
    requires i < |b.files| && i < |b.steps|
  {
    ListingImage(b.listingId, b.owner, b.publicUrl(Key(b, i)))
  }

  /** The rows of the first `k` photos, in input order. */
  function NewRows(b: Batch, k: nat): (rows: seq<ListingImage>)
    requires k <= |b.files| && k <= |b.steps|
    ensures |rows| == k
    ensures forall j :: 0 <= j < k ==> rows[j] == Row(b, j)
  {
    if k == 0 then [] else NewRows(b, k - 1) + [Row(b, k - 1)]
  }

  /** The keys of the first `k` photos. */
  function NewKeys(b: Batch, k: nat): (keys: set<string>)
    requires k <= |b.files| && k <= |b.steps|
    ensures forall j :: 0 <= j < k ==> Key(b, j) in keys
  {
    if k == 0 then {} else NewKeys(b, k - 1) + {Key(b, k - 1)}
  }

  /** Every key stored after `k` photos is the key of one of them. */
  lemma {:induction false} NewKeysOnly(b: Batch, k: nat)
    requires k <= |b.files| && k <= |b.steps|
    ensures forall key :: key in NewKeys(b, k) ==> exists j :: 0 <= j < k && key == Key(b, j)
  {
    if k > 0 {
      NewKeysOnly(b, k - 1);
      forall key | key in NewKeys(b, k) ensures exists j :: 0 <= j < k && key == Key(b, j) {
        if key in NewKeys(b, k - 1) {
          var j :| 0 <= j < k - 1 && key == Key(b, j);
          assert 0 <= j < k && key == Key(b, j);
        } else {
          assert key == Key(b, k - 1);
        }
      }
    }
  }

  /** The backend after the first `k` photos were each uploaded and recorded. */
  function Stored(t: Tables, b: Batch, k: nat): Tables
    requires k <= |b.files| && k <= |b.steps|
  {
    t.(images := t.images + NewRows(b, k), files := t.files + NewKeys(b, k))
  }

  predicate StepSucceeds(s: ImageStep) {
    s.upload.Success? && s.rowInsert.Success?
  }

  /** Index of the first photo whose upload or row insert fails, or `|steps|` when none does. */
  function FirstFailure(steps: seq<ImageStep>): (k: nat)
    ensures k <= |steps|
    ensures forall j :: 0 <= j < k ==> StepSucceeds(steps[j])
    ensures k < |steps| ==> !StepSucceeds(steps[k])
  {
    if |steps| == 0 then 0
    else if !StepSucceeds(steps[0]) then 0
    else
      var k := 1 + FirstFailure(steps[1..]);
      assert forall j :: 1 <= j < k ==> steps[j] == steps[1..][j - 1];
      k
  }

  /** The photo loop: every photo before the first failing one is uploaded and recorded; at a
      failing upload the listing row is deleted, at a failing row insert the photo's file is
      removed and then the listing row is deleted. Answers the state and the error, if any. */
  function PhotosSpec(t1: Tables, b: Batch): (Tables, Option<string>)
    requires |b.steps| == |b.files|
  {
    var k := FirstFailure(b.steps);
    var tk := Stored(t1, b, k);
    if k == |b.files| then (tk, None)
    else
      var s := b.steps[k];
      if s.upload.Failure? then
        (Apply(s.rollback, tk, RemoveListing(tk, b.listingId)),
         Some("Failed to upload image: " + Described(s.upload.err)))
      else
        var uploaded := AddFile(tk, Key(b, k));
        var cleaned := Apply(s.removeFile, uploaded, RemoveFile(uploaded, Key(b, k)));
        (Apply(s.rollback, cleaned, RemoveListing(cleaned, b.listingId)),
         Some("Failed to save image metadata: " + Described(s.rowInsert.err)))
  }

  /** After every photo is stored: the cover is set to the first photo's URL when there is one,
      and the answer is the re-fetched row, or the inserted row when the re-fetch fails. */
  function FinishSpec(tp: Tables, b: Batch, inserted: Listing, cover: Outcome, fetch: Outcome): (Tables, Result<Created>)
    requires |b.steps| == |b.files|
  {
    var tc := if |b.files| > 0 then Apply(cover, tp, SetCover(tp, b.listingId, b.publicUrl(Key(b, 0)))) else tp;
    var answer := if fetch.Success? && b.listingId in tc.listings
                  then Fetched(tc.listings[b.listingId], ImagesOf(tc.images, b.listingId))
                  else AsInserted(inserted);
    (tc, Ok(answer))
  }

  /** What the backend holds after one `createListing` call and what the call answers. */
  function CreateListingSpec(t: Tables, publicUrl: string -> string, user: Option<User>,
                             data: ListingInput, files: seq<ImageFile>, env: CreateEnv): (Tables, Result<Created>)
    requires |env.steps| == |files|
  {
    if user.None? then (t, Err(UserNotAuthenticated))
    else if env.insert.Failure? then (t, Err(OrElse(env.insert.err.message, FailedToInsert)))
    else
      var draft := InsertData(user.value, data, env.createdAt);
      var inserted := Listing(t.nextListingId, draft, None);
      var b := Batch(inserted.id, user.value.id, files, env.steps, publicUrl);
      var (tp, failure) := PhotosSpec(AddListing(t, draft), b);
      if failure.Some? then (tp, Err(failure.value))
      else FinishSpec(tp, b, inserted, env.cover, env.fetch)
  }

  // ---------------------------------------------------------------------------------------------
  // What one `createListing` call guarantees, and what it leaves behind on failure.

  /** Within one call, photos with different indices get different keys. */
  lemma PhotoKeysDistinct(b: Batch, i: nat, j: nat)
    requires i < |b.files| && i < |b.steps| && j < |b.files| && j < |b.steps|
    requires i != j
    ensures Key(b, i) != Key(b, j)
  {
    if Key(b, i) == Key(b, j) {
      ListingImageKeyInjective(b.listingId, b.owner, b.steps[i].now, i, FileExtension(b.files[i]),
                               b.steps[j].now, j, FileExtension(b.files[j]));
    }
  }

  /** The key of photo `k` is not among the keys of the photos before it. */
  lemma KeyNotEarlier(b: Batch, k: nat)
    requires k < |b.files| && k < |b.steps|
    ensures Key(b, k) !in NewKeys(b, k)
  {
    NewKeysOnly(b, k);
    forall j | 0 <= j < k ensures Key(b, k) != Key(b, j) {
      PhotoKeysDistinct(b, k, j);
    }
  }

  /** Every new row belongs to the batch's listing. */
  lemma NewRowsBelong(b: Batch, k: nat)
    requires k <= |b.files| && k <= |b.steps|
    ensures forall r :: r in NewRows(b, k) ==> r.listingId == b.listingId && r.userId == b.owner
  {
    var rows := NewRows(b, k);
    forall r | r in rows ensures r.listingId == b.listingId && r.userId == b.owner {
      var j :| 0 <= j < k && rows[j] == r;
    }
  }

  /** When the listing had no rows before, its rows after storing `k` photos are exactly the
      rows of those photos, in order. */
  lemma StoredImagesOf(t1: Tables, b: Batch, k: nat)
    requires k <= |b.files| && k <= |b.steps|
    requires forall r :: r in t1.images ==> r.listingId != b.listingId
    ensures ImagesOf(Stored(t1, b, k).images, b.listingId) == NewRows(b, k)
  {
    ImagesOfNone(t1.images, b.listingId);
    NewRowsBelong(b, k);
    ImagesOfAll(NewRows(b, k), b.listingId);
    ImagesOfAppend(t1.images, NewRows(b, k), b.listingId);
  }

  /** With nobody signed in, or when the skeleton insert fails, the call fails and the backend is
      untouched: no upload, no image row and no update happens. */
  lemma CreateRejected(t: Tables, publicUrl: string -> string, user: Option<User>,
                       data: ListingInput, files: seq<ImageFile>, env: CreateEnv)
    requires |env.steps| == |files|
    requires user.None? || env.insert.Failure?
    ensures var (t', r) := CreateListingSpec(t, publicUrl, user, data, files, env);
      && t' == t
      && (user.None? ==> r == Err(UserNotAuthenticated))
      && (user.Some? ==> r == Err(if env.insert.err.message != "" then env.insert.err.message else FailedToInsert))
  {
  }

  /** Once the skeleton row is in, the call is the photo loop on the backend with that row,
      followed by the cover update and the re-fetch when no photo failed. */
  lemma CreateAfterInsert(t: Tables, publicUrl: string -> string, user: Option<User>,
                          data: ListingInput, files: seq<ImageFile>, env: CreateEnv)
    requires |env.steps| == |files|
    requires user.Some? && env.insert.Success?
    ensures var draft := InsertData(user.value, data, env.createdAt);
      var b := Batch(t.nextListingId, user.value.id, files, env.steps, publicUrl);
      var (tp, failure) := PhotosSpec(AddListing(t, draft), b);
      && (failure.Some? ==> CreateListingSpec(t, publicUrl, user, data, files, env) == (tp, Err(failure.value)))
      && (failure.None? ==> CreateListingSpec(t, publicUrl, user, data, files, env)
                              == FinishSpec(tp, b, Listing(t.nextListingId, draft, None), env.cover, env.fetch))
  {
  }

  /** When no photo fails, the loop stores every photo and reports no failure. */
  lemma PhotosAllStored(t1: Tables, b: Batch)
    requires |b.steps| == |b.files| && FirstFailure(b.steps) == |b.files|
    ensures PhotosSpec(t1, b) == (Stored(t1, b, |b.files|), None)
  {
  }

  /** The cover update and the re-fetch touch neither the photo rows nor the files. */
  lemma FinishKeepsRowsAndFiles(tp: Tables, b: Batch, inserted: Listing, cover: Outcome, fetch: Outcome)
    requires |b.steps| == |b.files|
    ensures FinishSpec(tp, b, inserted, cover, fetch).0.images == tp.images
    ensures FinishSpec(tp, b, inserted, cover, fetch).0.files == tp.files
  {
  }

  /** When the insert and every photo succeed, the call is the cover update and the re-fetch
      applied to the skeleton row with every photo stored. */
  lemma CreateReachesFinish(t: Tables, publicUrl: string -> string, user: Option<User>,
                            data: ListingInput, files: seq<ImageFile>, env: CreateEnv)
    requires |env.steps| == |files|
    requires user.Some? && env.insert.Success? && FirstFailure(env.steps) == |files|
    ensures var draft := InsertData(user.value, data, env.createdAt);
      var b := Batch(t.nextListingId, user.value.id, files, env.steps, publicUrl);
      CreateListingSpec(t, publicUrl, user, data, files, env)
        == FinishSpec(Stored(AddListing(t, draft), b, |files|), b, Listing(t.nextListingId, draft, None), env.cover, env.fetch)
  {
    var draft := InsertData(user.value, data, env.createdAt);
    var b := Batch(t.nextListingId, user.value.id, files, env.steps, publicUrl);
    PhotosAllStored(AddListing(t, draft), b);
    CreateAfterInsert(t, publicUrl, user, data, files, env);
  }

  /** When every photo is stored: the new row has the next id, the session user as owner, the
      six fields from the input and, when there is at least one photo and the cover update is
      accepted, the first photo's URL as cover; no other listing or profile changes; and the
      answer is the re-fetched row with that listing's photo rows, or the row as first inserted
      when the re-fetch fails. */
  lemma CreateSucceeds(t: Tables, publicUrl: string -> string, user: Option<User>,
                       data: ListingInput, files: seq<ImageFile>, env: CreateEnv)
    requires WellFormed(t) && |env.steps| == |files|
    requires user.Some? && env.insert.Success? && FirstFailure(env.steps) == |files|
    ensures var (t', r) := CreateListingSpec(t, publicUrl, user, data, files, env);
      var id := t.nextListingId;
      var b := Batch(id, user.value.id, files, env.steps, publicUrl);
      var draft := InsertData(user.value, data, env.createdAt);
      && id !in t.listings && id in t'.listings
      && t'.listings[id].id == id
      && t'.listings[id].draft == draft
      && draft.userId == user.value.id
      && draft.title == data.title && draft.description == data.description && draft.price == data.price
      && draft.currency == data.currency && draft.category == data.category && draft.condition == data.condition
      && t'.listings[id].imageUrl == (if |files| > 0 && env.cover.Success? then Some(publicUrl(Key(b, 0))) else None)
      && t'.listings - {id} == t.listings
      && t'.profiles == t.profiles && t'.nextListingId == id + 1
      && r.Ok?
      && r.value == (if env.fetch.Success? then Fetched(t'.listings[id], ImagesOf(t'.images, id))
                     else AsInserted(Listing(id, draft, None)))
  {
    var id := t.nextListingId;
    var b := Batch(id, user.value.id, files, env.steps, publicUrl);
    var draft := InsertData(user.value, data, env.createdAt);
    var inserted := Listing(id, draft, None);
    var tp := Stored(AddListing(t, draft), b, |files|);
    CreateReachesFinish(t, publicUrl, user, data, files, env);
    var tc := FinishSpec(tp, b, inserted, env.cover, env.fetch).0;
    assert tp.listings == t.listings[id := inserted];
    RemoveAfterPut(t.listings, id, inserted);
    if |files| > 0 && env.cover.Success? {
      RemoveAfterOverwrite(tp.listings, id, tc.listings[id]);
      assert tc.listings == tp.listings[id := tc.listings[id]];
    }
  }

  /** When every photo is stored, the photo rows of the new listing are exactly one row per
      photo, in input order, each owned by the session user; every photo's file is stored; and
      the rows and files of other listings are kept. */
  lemma CreateRecordsPhotos(t: Tables, publicUrl: string -> string, user: Option<User>,
                            data: ListingInput, files: seq<ImageFile>, env: CreateEnv)
    requires WellFormed(t) && |env.steps| == |files|
    requires user.Some? && env.insert.Success? && FirstFailure(env.steps) == |files|
    ensures var t' := CreateListingSpec(t, publicUrl, user, data, files, env).0;
      var id := t.nextListingId;
      var b := Batch(id, user.value.id, files, env.steps, publicUrl);
      && t'.images == t.images + NewRows(b, |files|)
      && ImagesOf(t'.images, id) == NewRows(b, |files|)
      && t'.files == t.files + NewKeys(b, |files|)
  {
    var id := t.nextListingId;
    var b := Batch(id, user.value.id, files, env.steps, publicUrl);
    var draft := InsertData(user.value, data, env.createdAt);
    var t1 := AddListing(t, draft);
    var tp := Stored(t1, b, |files|);
    var t' := CreateListingSpec(t, publicUrl, user, data, files, env).0;
    assert t' == FinishSpec(tp, b, Listing(id, draft, None), env.cover, env.fetch).0 by {
      CreateReachesFinish(t, publicUrl, user, data, files, env);
    }
    FinishKeepsRowsAndFiles(tp, b, Listing(id, draft, None), env.cover, env.fetch);
    assert t'.images == tp.images && t'.files == tp.files;
    assert t1.images == t.images && t1.files == t.files;
    assert forall r :: r in t1.images ==> r.listingId != id;
    StoredImagesOf(t1, b, |files|);
  }

  /** When the upload of photo `k` fails, the call fails and deletes the listing row when it can,
      but the files and rows of the photos before `k` stay behind. */
  lemma CreateUploadFails(t: Tables, publicUrl: string -> string, user: Option<User>,
                          data: ListingInput, files: seq<ImageFile>, env: CreateEnv, k: nat)
    requires WellFormed(t) && |env.steps| == |files|
    requires user.Some? && env.insert.Success?
    requires k == FirstFailure(env.steps) && k < |files| && env.steps[k].upload.Failure?
    ensures var (t', r) := CreateListingSpec(t, publicUrl, user, data, files, env);
      var id := t.nextListingId;
      var b := Batch(id, user.value.id, files, env.steps, publicUrl);
      && r == Err("Failed to upload image: " + Described(env.steps[k].upload.err))
      && (env.steps[k].rollback.Success? ==> t'.listings == t.listings)
      && (env.steps[k].rollback.Failure? ==> t'.listings - {id} == t.listings && id in t'.listings)
      && t'.images == t.images + NewRows(b, k)
      && t'.files == t.files + NewKeys(b, k)
  {
    var id := t.nextListingId;
    var b := Batch(id, user.value.id, files, env.steps, publicUrl);
    var draft := InsertData(user.value, data, env.createdAt);
    var t1 := AddListing(t, draft);
    PhotosStopAtUpload(t1, b, k);
    CreateAfterInsert(t, publicUrl, user, data, files, env);
    RemoveAfterPut(t.listings, id, Listing(id, draft, None));
  }

  /** When photo `k` uploads but its row insert fails, the call fails, removes that photo's file
      when it can and deletes the listing row when it can; the files and rows of the photos
      before `k` stay behind. */
  lemma CreateRowFails(t: Tables, publicUrl: string -> string, user: Option<User>,
                       data: ListingInput, files: seq<ImageFile>, env: CreateEnv, k: nat)
    requires WellFormed(t) && |env.steps| == |files|
    requires user.Some? && env.insert.Success?
    requires k == FirstFailure(env.steps) && k < |files|
    requires env.steps[k].upload.Success? && env.steps[k].rowInsert.Failure?
    ensures var (t', r) := CreateListingSpec(t, publicUrl, user, data, files, env);
      var id := t.nextListingId;
      var b := Batch(id, user.value.id, files, env.steps, publicUrl);
      var s := env.steps[k];
      && r == Err("Failed to save image metadata: " + Described(s.rowInsert.err))
      && (s.rollback.Success? ==> t'.listings == t.listings)
      && (s.rollback.Failure? ==> t'.listings - {id} == t.listings && id in t'.listings)
      && t'.images == t.images + NewRows(b, k)
      && (s.removeFile.Success? ==> t'.files == (t.files + NewKeys(b, k)) - {Key(b, k)})
      && (s.removeFile.Success? ==> NewKeys(b, k) <= t'.files && Key(b, k) !in t'.files)
      && (s.removeFile.Failure? ==> t'.files == t.files + NewKeys(b, k) + {Key(b, k)})
  {
    var id := t.nextListingId;
    var b := Batch(id, user.value.id, files, env.steps, publicUrl);
    var draft := InsertData(user.value, data, env.createdAt);
    var t1 := AddListing(t, draft);
    var s := env.steps[k];
    var key := Key(b, k);
    var keys := NewKeys(b, k);
    PhotosStopAtRow(t1, b, k);
    CreateAfterInsert(t, publicUrl, user, data, files, env);
    RemoveAfterPut(t.listings, id, Listing(id, draft, None));
    KeyNotEarlier(b, k);
    var uploaded := AddFile(Stored(t1, b, k), key);
    assert uploaded.files == t.files + keys + {key};
    var cleaned := Apply(s.removeFile, uploaded, RemoveFile(uploaded, key));
    if s.removeFile.Success? {
      assert cleaned.files == (t.files + keys + {key}) - {key};
      assert (t.files + keys + {key}) - {key} == (t.files + keys) - {key};
    }
  }

  /** Storing one more photo appends its row and adds its key. */
  lemma StoredStep(t1: Tables, b: Batch, i: nat)
    requires i < |b.files| && i < |b.steps|
    ensures Stored(t1, b, i + 1) == AddImage(AddFile(Stored(t1, b, i), Key(b, i)), Row(b, i))
  {
    StoredStepImages(t1, b, i);
    StoredStepFiles(t1, b, i);
  }

  lemma StoredStepImages(t1: Tables, b: Batch, i: nat)
    requires i < |b.files| && i < |b.steps|
    ensures Stored(t1, b, i + 1).images == Stored(t1, b, i).images + [Row(b, i)]
  {
    assert NewRows(b, i + 1) == NewRows(b, i) + [Row(b, i)];
  }

  lemma StoredStepFiles(t1: Tables, b: Batch, i: nat)
    requires i < |b.files| && i < |b.steps|
    ensures Stored(t1, b, i + 1).files == Stored(t1, b, i).files + {Key(b, i)}
  {
    assert NewKeys(b, i + 1) == NewKeys(b, i) + {Key(b, i)};
  }

  /** The photo loop stops at photo `i` when its upload fails. */
  lemma PhotosStopAtUpload(t1: Tables, b: Batch, i: nat)
    requires |b.steps| == |b.files| && i < |b.files| && i <= FirstFailure(b.steps)
    requires b.steps[i].upload.Failure?
    ensures var tk := Stored(t1, b, i);
      PhotosSpec(t1, b) == (Apply(b.steps[i].rollback, tk, RemoveListing(tk, b.listingId)),
                            Some("Failed to upload image: " + Described(b.steps[i].upload.err)))
  {
    assert !StepSucceeds(b.steps[i]);
    assert FirstFailure(b.steps) == i;
  }

  /** The photo loop stops at photo `i` when its upload succeeds and its row insert fails. */
  lemma PhotosStopAtRow(t1: Tables, b: Batch, i: nat)
    requires |b.steps| == |b.files| && i < |b.files| && i <= FirstFailure(b.steps)
    requires b.steps[i].upload.Success? && b.steps[i].rowInsert.Failure?
    ensures var s := b.steps[i];
      var uploaded := AddFile(Stored(t1, b, i), Key(b, i));
      var cleaned := Apply(s.removeFile, uploaded, RemoveFile(uploaded, Key(b, i)));
      PhotosSpec(t1, b) == (Apply(s.rollback, cleaned, RemoveListing(cleaned, b.listingId)),
                            Some("Failed to save image metadata: " + Described(s.rowInsert.err)))
  {
    assert !StepSucceeds(b.steps[i]);
    assert FirstFailure(b.steps) == i;
  }

  /** The compensation for a failed upload of photo `i`: the listing row is deleted. */
  method AbandonAfterUpload(db: Backend, ghost t1: Tables, b: Batch, i: nat) returns (failure: Option<string>)
    requires db.Valid() && |b.steps| == |b.files| && i < |b.files| && i <= FirstFailure(b.steps)
    requires b.steps[i].upload.Failure? && db.Snapshot() == Stored(t1, b, i)
    modifies db
    ensures db.Valid() && db.nextListingId == old(db.nextListingId)
    ensures failure.Some? && (db.Snapshot(), failure) == PhotosSpec(t1, b)
  {
    var step := b.steps[i];
    db.DeleteListing(b.listingId, step.rollback);
    PhotosStopAtUpload(t1, b, i);
    failure := Some("Failed to upload image: " + Described(step.upload.err));
  }

  /** The compensation for a failed row insert of photo `i`: its file is removed, then the
      listing row is deleted. */
  method AbandonAfterRow(db: Backend, ghost t1: Tables, b: Batch, i: nat) returns (failure: Option<string>)
    requires db.Valid() && |b.steps| == |b.files| && i < |b.files| && i <= FirstFailure(b.steps)
    requires b.steps[i].upload.Success? && b.steps[i].rowInsert.Failure?
    requires db.Snapshot() == AddFile(Stored(t1, b, i), Key(b, i))
    modifies db
    ensures db.Valid() && db.nextListingId == old(db.nextListingId)
    ensures failure.Some? && (db.Snapshot(), failure) == PhotosSpec(t1, b)
  {
    var step := b.steps[i];
    db.Remove(Key(b, i), step.removeFile);
    db.DeleteListing(b.listingId, step.rollback);
    PhotosStopAtRow(t1, b, i);
    failure := Some("Failed to save image metadata: " + Described(step.rowInsert.err));
  }

  /** One iteration of the photo loop: uploads photo `i` and records its row, or runs the
      compensations of the call that failed and stops the loop with its message. */
  method StorePhoto(db: Backend, ghost t1: Tables, b: Batch, i: nat) returns (failure: Option<string>, url: string)
    requires db.Valid() && b.listingId < db.nextListingId && b.publicUrl == db.publicUrl
    requires |b.steps| == |b.files| && i < |b.files| && i <= FirstFailure(b.steps)
    requires db.Snapshot() == Stored(t1, b, i)
    modifies db
    ensures db.Valid() && b.listingId < db.nextListingId
    ensures failure.Some? ==> (db.Snapshot(), failure) == PhotosSpec(t1, b)
    ensures failure.None? ==> db.Snapshot() == Stored(t1, b, i + 1) && i + 1 <= FirstFailure(b.steps)
    ensures url == db.publicUrl(Key(b, i))
  {
    var file := b.files[i];
    var step := b.steps[i];
    var ext := Extension(if file.name.Some? then file.name.value else "");
    var fileName := ListingImageKey(b.listingId, b.owner, step.now, i, ext);
    assert fileName == Key(b, i);
    url := db.publicUrl(fileName);
    db.Upload(fileName, step.upload);
    if step.upload.Failure? {
      failure := AbandonAfterUpload(db, t1, b, i);
      return;
    }
    db.InsertImage(ListingImage(b.listingId, b.owner, url), step.rowInsert);
    if step.rowInsert.Failure? {
      failure := AbandonAfterRow(db, t1, b, i);
      return;
    }
    StoredStep(t1, b, i);
    assert StepSucceeds(b.steps[i]);
    failure := None;
  }

  /** The `for` loop over `imageFiles`: stores the photos in input order and stops at the first
      failure after running that failure's compensations. */
  method UploadPhotos(db: Backend, listingId: nat, owner: string, files: seq<ImageFile>, steps: seq<ImageStep>)
    returns (failure: Option<string>, uploadedUrls: seq<string>)
    requires db.Valid() && listingId < db.nextListingId && |steps| == |files|
    modifies db
    ensures db.Valid()
    ensures (db.Snapshot(), failure) == PhotosSpec(old(db.Snapshot()), Batch(listingId, owner, files, steps, db.publicUrl))
    ensures failure.None? ==> |uploadedUrls| == |files|
    ensures failure.None? && |files| > 0 ==> uploadedUrls[0] == db.publicUrl(Key(Batch(listingId, owner, files, steps, db.publicUrl), 0))
  {
    var b := Batch(listingId, owner, files, steps, db.publicUrl);
    ghost var t1 := db.Snapshot();
    assert t1 == Stored(t1, b, 0);
    uploadedUrls := [];
    var i := 0;
    while i < |files|
      invariant 0 <= i <= |files| && i <= FirstFailure(steps)
      invariant db.Valid() && listingId < db.nextListingId
      invariant db.Snapshot() == Stored(t1, b, i)
      invariant |uploadedUrls| == i && (i > 0 ==> uploadedUrls[0] == db.publicUrl(Key(b, 0)))
    {
      var url;
      failure, url := StorePhoto(db, t1, b, i);
      if failure.Some? {
        return;
      }
      uploadedUrls := uploadedUrls + [url];
      i := i + 1;
    }
    PhotosAllStored(t1, b);
    failure := None;
  }

  /** `createListing(listingData, imageFiles)` */
  method CreateListing(db: Backend, user: Option<User>, data: ListingInput, files: seq<ImageFile>, env: CreateEnv)
    returns (result: Result<Created>)
    requires db.Valid() && |env.steps| == |files|
    modifies db
    ensures db.Valid()
    ensures (db.Snapshot(), result) == CreateListingSpec(old(db.Snapshot()), db.publicUrl, user, data, files, env)
  {
    if user.None? {
      return Err(UserNotAuthenticated);
    }
    var u := user.value;
    var insertData := InsertData(u, data, env.createdAt);
    var inserted := db.InsertListing(insertData, env.insert);
    if inserted.None? {
      return Err(OrElse(env.insert.err.message, FailedToInsert));
    }
    var listingId := inserted.value.id;
    var uploadedUrls: seq<string> := [];
    if |files| > 0 {
      var failure;
      failure, uploadedUrls := UploadPhotos(db, listingId, u.id, files, env.steps);
      if failure.Some? {
        return Err(failure.value);
      }
    } else {
      assert db.Snapshot() == Stored(db.Snapshot(), Batch(listingId, u.id, files, env.steps, db.publicUrl), 0);
    }
    if |uploadedUrls| > 0 {
      db.UpdateCover(listingId, uploadedUrls[0], env.cover);
    }
    var finalListing := db.FetchListing(listingId, env.fetch);
    if finalListing.None? {
      return Ok(AsInserted(inserted.value));
    }
    return Ok(Fetched(finalListing.value.0, finalListing.value.1));
  }

  // ---------------------------------------------------------------------------------------------
  // `deleteListing(listingId)`

  /** The backend's answers during one `deleteListing` call: the owner lookup, the best-effort
      delete of the photo rows, and the delete of the listing row. */
  datatype DeleteEnv = DeleteEnv(lookup: Outcome, deleteImages: Outcome, deleteListing: Outcome)

  /** What the backend holds after one `deleteListing` call and what the call answers. */
  function DeleteListingSpec(t: Tables, user: Option<User>, listingId: nat, env: DeleteEnv): (Tables, Result<()>) {
    if user.None? then (t, Err(UserNotAuthenticated))
    else if env.lookup.Failure? || listingId !in t.listings then (t, Err(ListingNotFound))
    else if t.listings[listingId].draft.userId != user.value.id then (t, Err(NotYourListing))
    else
      var ti := Apply(env.deleteImages, t, RemoveImagesOf(t, listingId));
      var tf := Apply(env.deleteListing, ti, RemoveListing(ti, listingId));
      (tf, if env.deleteListing.Failure? then Err(env.deleteListing.err.message) else Ok(()))
  }

  method DeleteListing(db: Backend, user: Option<User>, listingId: nat, env: DeleteEnv) returns (result: Result<()>)
    requires db.Valid()
    modifies db
    ensures db.Valid()
    ensures (db.Snapshot(), result) == DeleteListingSpec(old(db.Snapshot()), user, listingId, env)
  {
    if user.None? {
      return Err(UserNotAuthenticated);
    }
    var owner := db.FetchOwner(listingId, env.lookup);
    if owner.None? {
      return Err(ListingNotFound);
    }
    if owner.value != user.value.id {
      return Err(NotYourListing);
    }
    db.DeleteImagesOf(listingId, env.deleteImages);
    db.DeleteListing(listingId, env.deleteListing);
    if env.deleteListing.Failure? {
      return Err(env.deleteListing.err.message);
    }
    return Ok(());
  }

  /** Nobody signed in, a lookup that fails or finds no row, or a listing owned by someone else:
      the call fails with the matching message and nothing is deleted. */
  lemma DeleteRefused(t: Tables, user: Option<User>, listingId: nat, env: DeleteEnv)
    requires user.None? || env.lookup.Failure? || listingId !in t.listings
          || t.listings[listingId].draft.userId != user.value.id
    ensures var (t', r) := DeleteListingSpec(t, user, listingId, env);
      && t' == t
      && r.Err?
      && (user.None? ==> r.error == UserNotAuthenticated)
      && (user.Some? && (env.lookup.Failure? || listingId !in t.listings) ==> r.error == ListingNotFound)
      && (user.Some? && env.lookup.Success? && listingId in t.listings ==> r.error == NotYourListing)
  {
  }

  /** The owner's delete: the listing's photo rows go first (when that delete is accepted) and
      the other listings' rows keep their order; then the listing row goes, and the call succeeds
      exactly when that second delete is accepted. Stored files are never touched, so a
      successful delete leaves the photos' files behind. */
  lemma DeleteByOwner(t: Tables, user: Option<User>, listingId: nat, env: DeleteEnv)
    requires user.Some? && env.lookup.Success? && listingId in t.listings
    requires t.listings[listingId].draft.userId == user.value.id
    ensures var (t', r) := DeleteListingSpec(t, user, listingId, env);
      && t'.files == t.files && t'.profiles == t.profiles && t'.nextListingId == t.nextListingId
      && (r.Ok? <==> env.deleteListing.Success?)
      && (env.deleteListing.Success? ==> listingId !in t'.listings && t'.listings == t.listings - {listingId})
      && (env.deleteListing.Failure? ==> t'.listings == t.listings && r == Err(env.deleteListing.err.message))
      && (env.deleteImages.Success? ==> ImagesOf(t'.images, listingId) == [] && t'.images == ImagesNotOf(t.images, listingId))
      && (env.deleteImages.Failure? ==> t'.images == t.images)
  {
    if env.deleteImages.Success? {
      ImagesOfNone(ImagesNotOf(t.images, listingId), listingId);
    }
  }

  /** Once the owner's delete succeeded, deleting the same listing again answers "Listing not
      found" and changes nothing. */
  lemma DeleteTwiceNotFound(t: Tables, user: Option<User>, listingId: nat, env: DeleteEnv)
    requires user.Some? && env.lookup.Success? && listingId in t.listings
    requires t.listings[listingId].draft.userId == user.value.id
    ensures var t' := DeleteListingSpec(t, user, listingId, env).0;
      env.deleteListing.Success? ==> DeleteListingSpec(t', user, listingId, env) == (t', Err(ListingNotFound))
  {
  }
}
