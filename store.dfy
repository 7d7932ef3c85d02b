/** The hosted backend as the browser code sees it: the `listings`, `listing_images` and
    `profiles` tables and the keys of the `listings-images` storage bucket. Each call the
    source makes is one operation here, and whether the backend accepts it is an input. */
module Store {
  import opened Common

  /** The signed-in user as `getCurrentUser` returns it. */
  datatype User = User(id: string, email: string)

  /** The row `createListing` inserts (its `insertData`). */
  datatype ListingDraft = ListingDraft(
    userId: string,
    title: Option<string>,
    description: Option<string>,
    price: Option<real>,
    currency: Option<string>,
    category: Option<string>,
    condition: Option<string>,
    createdAt: string)

  /** A `listings` row: the inserted fields, the id the database assigns, and the cover URL. */
  datatype Listing = Listing(id: nat, draft: ListingDraft, imageUrl: Option<string>)

  /** A `listing_images` row. */
  datatype ListingImage = ListingImage(listingId: nat, userId: string, url: string)

  /** A `profiles` row. */
  datatype Profile = Profile(
    id: string,
    username: Option<string>,
    fullName: Option<string>,
    bio: string,
    location: string,
    avatarUrl: Option<string>,
    updatedAt: string)

  /** The whole backend state: tables, stored file keys, and the identity sequence of `listings.id`. */
  datatype Tables = Tables(
    listings: map<nat, Listing>,
    images: seq<ListingImage>,
    files: set<string>,
    profiles: map<string, Profile>,
    nextListingId: nat)

  /** Listing rows are stored under their own id, every id in use (by a listing or by an image
      row) was issued by the identity sequence, and profile rows are keyed by their id. */
  predicate WellFormed(t: Tables) {
    && (forall id :: id in t.listings ==> id < t.nextListingId && t.listings[id].id == id)
    && (forall r :: r in t.images ==> r.listingId < t.nextListingId)
    && (forall uid :: uid in t.profiles ==> t.profiles[uid].id == uid)
  }

  /** The `listing_images` rows of one listing, in table order. */
  function ImagesOf(images: seq<ListingImage>, listingId: nat): (rows: seq<ListingImage>)
    ensures forall r :: r in rows <==> r in images && r.listingId == listingId
    ensures |rows| <= |images|
  {
    if |images| == 0 then []
    else
      var rest := ImagesOf(images[1..], listingId);
      assert forall r :: r in images <==> r == images[0] || r in images[1..];
      if images[0].listingId == listingId then [images[0]] + rest else rest
  }

  /** The `listing_images` rows of every other listing, in table order. */
  function ImagesNotOf(images: seq<ListingImage>, listingId: nat): (rows: seq<ListingImage>)
    ensures forall r :: r in rows <==> r in images && r.listingId != listingId
    ensures |rows| <= |images|
  {
    if |images| == 0 then []
    else
      var rest := ImagesNotOf(images[1..], listingId);
      assert forall r :: r in images <==> r == images[0] || r in images[1..];
      if images[0].listingId != listingId then [images[0]] + rest else rest
  }

  /** Appending rows for a listing appends exactly those rows to that listing's rows. */
  lemma {:induction false} ImagesOfAppend(images: seq<ListingImage>, more: seq<ListingImage>, listingId: nat)
    ensures ImagesOf(images + more, listingId) == ImagesOf(images, listingId) + ImagesOf(more, listingId)
  {
    if |images| == 0 {
      assert images + more == more;
    } else {
      assert (images + more)[0] == images[0];
      assert (images + more)[1..] == images[1..] + more;
      ImagesOfAppend(images[1..], more, listingId);
    }
  }

  /** A listing none of whose rows is in the table has no rows. */
  lemma {:induction false} ImagesOfNone(images: seq<ListingImage>, listingId: nat)
    requires forall r :: r in images ==> r.listingId != listingId
    ensures ImagesOf(images, listingId) == []
  {
    if |images| > 0 {
      assert images[0] in images;
      forall r | r in images[1..] ensures r.listingId != listingId {
        assert r in images;
      }
      ImagesOfNone(images[1..], listingId);
    }
  }

  /** Rows that all belong to one listing are all of that listing's rows, in the same order. */
  lemma {:induction false} ImagesOfAll(images: seq<ListingImage>, listingId: nat)
    requires forall r :: r in images ==> r.listingId == listingId
    ensures ImagesOf(images, listingId) == images
  {
    if |images| > 0 {
      assert images[0] in images;
      forall r | r in images[1..] ensures r.listingId == listingId {
        assert r in images;
      }
      ImagesOfAll(images[1..], listingId);
      assert images == [images[0]] + images[1..];
    }
  }

  /** Deleting the entry just written under a fresh key gives the map back. */
  lemma RemoveAfterPut<K, V>(m: map<K, V>, k: K, v: V)
    requires k !in m
    ensures m[k := v] - {k} == m
  {
    assert (m[k := v] - {k}).Keys == m.Keys;
  }

  /** Deleting a key forgets what was last written under it. */
  lemma RemoveAfterOverwrite<K, V>(m: map<K, V>, k: K, v: V)
    ensures m[k := v] - {k} == m - {k}
  {
    assert (m[k := v] - {k}).Keys == (m - {k}).Keys;
  }

  // One function per backend write; `Apply` keeps the old state when the backend refuses.

  function Apply(outcome: Outcome, before: Tables, after: Tables): Tables {
    if outcome.Success? then after else before
  }

  /** `insert` into `listings`: the row gets the next id and no cover. */
  function AddListing(t: Tables, draft: ListingDraft): Tables {
    t.(listings := t.listings[t.nextListingId := Listing(t.nextListingId, draft, None)],
       nextListingId := t.nextListingId + 1)
  }

  function AddFile(t: Tables, key: string): Tables {
    t.(files := t.files + {key})
  }

  function RemoveFile(t: Tables, key: string): Tables {
    t.(files := t.files - {key})
  }

  function AddImage(t: Tables, row: ListingImage): Tables {
    t.(images := t.images + [row])
  }

  /** `update({ image_url }).eq('id', id)`: no row changes when there is no such listing. */
  function SetCover(t: Tables, id: nat, url: string): Tables {
    if id in t.listings then t.(listings := t.listings[id := t.listings[id].(imageUrl := Some(url))]) else t
  }

  /** `delete().eq('id', id)` on `listings`. */
  function RemoveListing(t: Tables, id: nat): Tables {
    t.(listings := t.listings - {id})
  }

  /** `delete().eq('listing_id', id)` on `listing_images`. */
  function RemoveImagesOf(t: Tables, id: nat): Tables {
    t.(images := ImagesNotOf(t.images, id))
  }

  /** `upsert` into `profiles`, keyed by the row's id. */
  function PutProfile(t: Tables, p: Profile): Tables {
    t.(profiles := t.profiles[p.id := p])
  }

  /** The backend client. Its fields are the stored state; each method is one call, applied
      when its outcome is a success. */
  class Backend {
    /** `getPublicUrl(key).data.publicUrl` of the bucket. */
    const publicUrl: string -> string

    var listings: map<nat, Listing>
    var images: seq<ListingImage>
    var files: set<string>
    var profiles: map<string, Profile>
    var nextListingId: nat

    function Snapshot(): Tables
      reads this
    {
      Tables(listings, images, files, profiles, nextListingId)
    }

    predicate Valid()
      reads this
    {
      WellFormed(Snapshot())
    }

    constructor (publicUrl: string -> string)
      ensures Valid() && this.publicUrl == publicUrl
      ensures Snapshot() == Tables(map[], [], {}, map[], 1)
    {
      this.publicUrl := publicUrl;
      listings, images, files, profiles, nextListingId := map[], [], {}, map[], 1;
    }

    method SetTables(t: Tables)
      modifies this
      ensures Snapshot() == t
    {
      listings, images, files, profiles, nextListingId := t.listings, t.images, t.files, t.profiles, t.nextListingId;
    }

    /** `from('listings').insert(row).select().single()` */
    method InsertListing(draft: ListingDraft, outcome: Outcome) returns (inserted: Option<Listing>)
      requires Valid()
      modifies this
      ensures Valid()
      ensures Snapshot() == Apply(outcome, old(Snapshot()), AddListing(old(Snapshot()), draft))
      ensures inserted == if outcome.Success? then Some(Listing(old(nextListingId), draft, None)) else None
    {
      inserted := None;
      if outcome.Success? {
        inserted := Some(Listing(nextListingId, draft, None));
        SetTables(AddListing(Snapshot(), draft));
      }
    }

    /** `storage.from('listings-images').upload(key, file)` */
    method Upload(key: string, outcome: Outcome)
      requires Valid()
      modifies this
      ensures Valid()
      ensures Snapshot() == Apply(outcome, old(Snapshot()), AddFile(old(Snapshot()), key))
    {
      if outcome.Success? {
        files := files + {key};
      }
    }

    /** `storage.from('listings-images').remove([key])` */
    method Remove(key: string, outcome: Outcome)
      requires Valid()
      modifies this
      ensures Valid()
      ensures Snapshot() == Apply(outcome, old(Snapshot()), RemoveFile(old(Snapshot()), key))
    {
      if outcome.Success? {
        files := files - {key};
      }
    }

    /** `from('listing_images').insert(row)`; the row's listing id was issued by the sequence. */
    method InsertImage(row: ListingImage, outcome: Outcome)
      requires Valid() && row.listingId < nextListingId
      modifies this
      ensures Valid()
      ensures Snapshot() == Apply(outcome, old(Snapshot()), AddImage(old(Snapshot()), row))
    {
      if outcome.Success? {
        images := images + [row];
      }
    }

    /** `from('listings').update({ image_url: url }).eq('id', id)` */
    method UpdateCover(id: nat, url: string, outcome: Outcome)
      requires Valid()
      modifies this
      ensures Valid()
      ensures Snapshot() == Apply(outcome, old(Snapshot()), SetCover(old(Snapshot()), id, url))
    {
      if outcome.Success? {
        SetTables(SetCover(Snapshot(), id, url));
      }
    }

    /** `from('listings').delete().eq('id', id)` */
    method DeleteListing(id: nat, outcome: Outcome)
      requires Valid()
      modifies this
      ensures Valid()
      ensures Snapshot() == Apply(outcome, old(Snapshot()), RemoveListing(old(Snapshot()), id))
    {
      if outcome.Success? {
        listings := listings - {id};
      }
    }

    /** `from('listing_images').delete().eq('listing_id', id)` */
    method DeleteImagesOf(id: nat, outcome: Outcome)
      requires Valid()
      modifies this
      ensures Valid()
      ensures Snapshot() == Apply(outcome, old(Snapshot()), RemoveImagesOf(old(Snapshot()), id))
    {
      if outcome.Success? {
        images := ImagesNotOf(images, id);
      }
    }

    /** `from('profiles').upsert(row).select()` */
    method UpsertProfile(p: Profile, outcome: Outcome)
      requires Valid()
      modifies this
      ensures Valid()
      ensures Snapshot() == Apply(outcome, old(Snapshot()), PutProfile(old(Snapshot()), p))
    {
      if outcome.Success? {
        profiles := profiles[p.id := p];
      }
    }

    /** `from('listings').select('*, listing_images (...)').eq('id', id).single()`: the row and
        its image rows, or nothing when the call fails or there is no such row. */
    method FetchListing(id: nat, outcome: Outcome) returns (r: Option<(Listing, seq<ListingImage>)>)
      ensures r.Some? <==> outcome.Success? && id in listings
      ensures r.Some? ==> r.value == (listings[id], ImagesOf(images, id))
    {
      r := None;
      if outcome.Success? && id in listings {
        r := Some((listings[id], ImagesOf(images, id)));
      }
    }

    /** `from('listings').select('user_id').eq('id', id).single()` */
    method FetchOwner(id: nat, outcome: Outcome) returns (owner: Option<string>)
      ensures owner.Some? <==> outcome.Success? && id in listings
      ensures owner.Some? ==> owner.value == listings[id].draft.userId
    {
      owner := None;
      if outcome.Success? && id in listings {
        owner := Some(listings[id].draft.userId);
      }
    }
  }
}
