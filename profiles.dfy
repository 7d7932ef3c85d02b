/** The profile adapter: the create-or-update of the signed-in user's profile row, the profile
    lookups, and the avatar upload. */
module Profiles {
  import opened Common
  import opened Store
  import opened StorageKeys
  import opened Text

  const UserNotAuthenticated := "User not authenticated"
  const UnexpectedError := "An unexpected error occurred"

  /** What `.single()` reports when the lookup matches no row. */
  const NoSingleRow := "JSON object requested, multiple (or no) rows returned"

  /** `profileData`: the fields a profile form may send. `id` stands for a caller-supplied id,
      which the record never uses. */
  datatype ProfileInput = ProfileInput(
    id: Option<string>,
    username: Option<string>,
    fullName: Option<string>,
    bio: Option<string>,
    location: Option<string>,
    avatarUrl: Option<string>)

  /** The `upsertData` record: the id is the session user's, `username` and `full_name` pass
      through as given, `bio` and `location` fall back to `''` and `avatar_url` to null when falsy. */
  function UpsertRecord(user: User, input: ProfileInput, now: string): Profile {
    Profile(
      id := user.id,
      username := input.username,
      fullName := input.fullName,
      bio := if Truthy(input.bio) then input.bio.value else "",
      location := if Truthy(input.location) then input.location.value else "",
      avatarUrl := if Truthy(input.avatarUrl) then input.avatarUrl else None,
      updatedAt := now)
  }

  /** What the record holds, whatever the form sends: the session user's id; the name fields as
      given; a text field the form left falsy is empty and otherwise as given; an avatar URL the
      form left falsy is null and otherwise as given. */
  lemma UpsertRecordFields(user: User, input: ProfileInput, now: string)
    ensures var r := UpsertRecord(user, input, now);
      && r.id == user.id
      && r.username == input.username && r.fullName == input.fullName
      && (r.bio == "" <==> !Truthy(input.bio)) && (Truthy(input.bio) ==> r.bio == input.bio.value)
      && (r.location == "" <==> !Truthy(input.location)) && (Truthy(input.location) ==> r.location == input.location.value)
      && (r.avatarUrl.None? <==> !Truthy(input.avatarUrl)) && (Truthy(input.avatarUrl) ==> r.avatarUrl == input.avatarUrl)
      && r.avatarUrl != Some("")
      && r.updatedAt == now
  {
  }

  /** What the backend holds after one `createOrUpdateProfile` call and what the call answers. */
  function UpsertProfileSpec(t: Tables, user: Option<User>, input: ProfileInput, now: string, outcome: Outcome)
    : (Tables, Result<Profile>)
  {
    if user.None? then (t, Err(UserNotAuthenticated))
    else
      var record := UpsertRecord(user.value, input, now);
      if outcome.Failure? then (t, Err(outcome.err.message))
      else (PutProfile(t, record), Ok(record))
  }

  /** `createOrUpdateProfile(profileData)` */
  method CreateOrUpdateProfile(db: Backend, user: Option<User>, input: ProfileInput, now: string, outcome: Outcome)
    returns (result: Result<Profile>)
    requires db.Valid()
    modifies db
    ensures db.Valid()
    ensures (db.Snapshot(), result) == UpsertProfileSpec(old(db.Snapshot()), user, input, now, outcome)
  {
    if user.None? {
      return Err(UserNotAuthenticated);
    }
    var upsertData := UpsertRecord(user.value, input, now);
    db.UpsertProfile(upsertData, outcome);
    if outcome.Failure? {
      return Err(outcome.err.message);
    }
    return Ok(upsertData);
  }

  /** `getProfile(userId)`: the row keyed `userId`, or the backend's message when the lookup fails
      or finds no row. */
  function GetProfile(t: Tables, userId: string, fetch: Outcome): (r: Result<Profile>)
    ensures r.Ok? <==> fetch.Success? && userId in t.profiles
    ensures r.Ok? ==> r.value == t.profiles[userId]
    ensures fetch.Failure? ==> r == Err(fetch.err.message)
  {
    if fetch.Failure? then Err(fetch.err.message)
    else if userId !in t.profiles then Err(NoSingleRow)
    else Ok(t.profiles[userId])
  }

  /** `getCurrentUserProfile()`: no user is an error, otherwise it is `getProfile` of the user. */
  function GetCurrentUserProfile(t: Tables, user: Option<User>, fetch: Outcome): (r: Result<Profile>)
    ensures user.None? ==> r == Err(UserNotAuthenticated)
    ensures user.Some? ==> r == GetProfile(t, user.value.id, fetch)
  {
    if user.None? then Err(UserNotAuthenticated) else GetProfile(t, user.value.id, fetch)
  }

  /** A rejected call changes nothing; an accepted one creates or replaces the user's own row and
      no other, leaves every other table alone, and answers the row it wrote. */
  lemma UpsertTouchesOnlyOwnRow(t: Tables, user: Option<User>, input: ProfileInput, now: string, outcome: Outcome)
    ensures var (t', r) := UpsertProfileSpec(t, user, input, now, outcome);
      && (user.None? ==> t' == t && r == Err(UserNotAuthenticated))
      && (user.Some? && outcome.Failure? ==> t' == t && r == Err(outcome.err.message))
      && (user.Some? && outcome.Success? ==>
            && r == Ok(UpsertRecord(user.value, input, now))
            && user.value.id in t'.profiles && t'.profiles[user.value.id] == r.value
            && t'.profiles.Keys == t.profiles.Keys + {user.value.id}
            && (forall uid :: uid in t.profiles && uid != user.value.id ==> t'.profiles[uid] == t.profiles[uid])
            && t'.listings == t.listings && t'.images == t.images && t'.files == t.files)
  {
  }

  /** A well-formed backend stays well-formed. */
  lemma UpsertKeepsWellFormed(t: Tables, user: Option<User>, input: ProfileInput, now: string, outcome: Outcome)
    requires WellFormed(t)
    ensures WellFormed(UpsertProfileSpec(t, user, input, now, outcome).0)
  {
  }

  /** Sending the same form twice leaves the backend as sending it once. */
  lemma UpsertTwice(t: Tables, user: Option<User>, input: ProfileInput, now: string, outcome: Outcome)
    ensures var t1 := UpsertProfileSpec(t, user, input, now, outcome).0;
      UpsertProfileSpec(t1, user, input, now, outcome) == UpsertProfileSpec(t, user, input, now, outcome)
  {
    if user.Some? && outcome.Success? {
      var record := UpsertRecord(user.value, input, now);
      assert t.profiles[record.id := record][record.id := record] == t.profiles[record.id := record];
    }
  }

  /** After an accepted upsert, the user's own profile reads back as the row written. */
  lemma ReadYourWrite(t: Tables, user: Option<User>, input: ProfileInput, now: string)
    requires user.Some?
    ensures var (t', r) := UpsertProfileSpec(t, user, input, now, Success);
      r.Ok? && GetCurrentUserProfile(t', user, Success) == r
  {
  }

  // ---------------------------------------------------------------------------------------------
  // `uploadAvatar(file)`

  /** What the backend holds after one `uploadAvatar` call and what it answers: the file is stored
      under `avatars/{userId}-{now}.{ext}` and the answer is its public URL. A file without a name
      makes `file.name.split` throw, which the call turns into its generic error. */
  function UploadAvatarSpec(t: Tables, publicUrl: string -> string, user: Option<User>, name: Option<string>,
                            now: nat, outcome: Outcome): (Tables, Result<string>)
  {
    if user.None? then (t, Err(UserNotAuthenticated))
    else if name.None? then (t, Err(UnexpectedError))
    else
      var key := AvatarKey(user.value.id, now, Extension(name.value));
      if outcome.Failure? then (t, Err(outcome.err.message))
      else (AddFile(t, key), Ok(publicUrl(key)))
  }

  /** `uploadAvatar(file)`, with the file given by its name. */
  method UploadAvatar(db: Backend, user: Option<User>, name: Option<string>, now: nat, outcome: Outcome)
    returns (result: Result<string>)
    requires db.Valid()
    modifies db
    ensures db.Valid()
    ensures (db.Snapshot(), result) == UploadAvatarSpec(old(db.Snapshot()), db.publicUrl, user, name, now, outcome)
  {
    if user.None? {
      return Err(UserNotAuthenticated);
    }
    if name.None? {
      return Err(UnexpectedError);
    }
    var fileExt := Extension(name.value);
    var fileName := AvatarKey(user.value.id, now, fileExt);
    db.Upload(fileName, outcome);
    if outcome.Failure? {
      return Err(outcome.err.message);
    }
    return Ok(db.publicUrl(fileName));
  }

  /** An accepted upload adds exactly one file, in the avatar folder under the user's id with the
      name's extension, and touches no row and no listing photo; every other outcome changes
      nothing and answers no URL. */
  lemma UploadAvatarEffect(t: Tables, publicUrl: string -> string, user: Option<User>, name: Option<string>,
                           now: nat, outcome: Outcome)
    ensures var (t', r) := UploadAvatarSpec(t, publicUrl, user, name, now, outcome);
      && (r.Ok? <==> user.Some? && name.Some? && outcome.Success?)
      && (r.Err? ==> t' == t)
      && (user.Some? && name.Some? && outcome.Failure? ==> r == Err(outcome.err.message))
      && (r.Ok? ==>
            var key := AvatarKey(user.value.id, now, Extension(name.value));
            && t' == t.(files := t.files + {key})
            && r.value == publicUrl(key)
            && key[..8] == "avatars/"
            && (forall id: nat, owner, now2: nat, i: nat, ext :: key != ListingImageKey(id, owner, now2, i, ext)))
  {
    if user.Some? && name.Some? && outcome.Success? {
      var ext := Extension(name.value);
      var key := AvatarKey(user.value.id, now, ext);
      assert key == "avatars/" + (user.value.id + "-" + Decimal(now) + "." + ext);
      forall id: nat, owner, now2: nat, i: nat, ext2 ensures key != ListingImageKey(id, owner, now2, i, ext2) {
        AvatarAndListingKeysDiffer(user.value.id, now, ext, id, owner, now2, i, ext2);
      }
    }
  }
}
