# Marketplace front end: listing workflow, validators, profiles, schema tool

This project is a Dafny model of the logic in a browser marketplace front end that goes beyond
plain calls to its hosted backend. It also covers the schema tool of the companion
database-inspection server. The properties are proved about the model. It covers:

- **Listing creation** (`createListing`). The skeleton row is inserted, then each photo is
  uploaded and recorded in `listing_images`, one at a time. The first photo becomes the cover,
  and the listing is re-fetched. Each failure inside the photo loop runs its own hand-written
  compensation.
- **Listing deletion** (`deleteListing`). Only the owner may delete. The photo rows are deleted
  first, then the listing row.
- **Storage keys.** Listing photos go under `listings/{listingId}/{userId}-{now}-{i}.{ext}`.
  Avatars go under `avatars/{userId}-{now}.{ext}`. The extension is the text after the last `.`
  of the file name.
- **Credential validators** (`isValidEmail`, `validatePassword`).
- **Profiles.** Covers the upsert record and its defaults, the upsert, the two profile lookups,
  and the avatar upload.
- **`get_schema`.** The rows of `information_schema.columns` are grouped into one ordered column
  list per table.
- **Start-up and auth-event handling of the home page.** Covers the cached user and profile, the
  name in the navigation bar, the profile-setup redirect rule, and the fallbacks on a listing
  card.

## How the backend is modelled

The backend is the class `Store.Backend`. Its fields hold:

- the `listings` rows (a map from id to row);
- the `listing_images` rows (a sequence);
- the `profiles` rows (a map from user id to row);
- the stored file keys (a set);
- the next value of the `listings.id` identity sequence.

Each backend call that the two listing operations, the profile upsert and the avatar upload
make is one method of that class. Each method takes an `Outcome`, the backend's answer to that
call: `Success`, or `Failure` with the error's `message` and the text the error object becomes
when concatenated with a string. The method changes the tables only on `Success`. The
compensating deletes and the file removal take an `Outcome` too. When they fail, the source
ignores it, and so does the model. The profile lookups (`Profiles.GetProfile`,
`Profiles.GetCurrentUserProfile`) change nothing, so they are functions over a `Store.Tables`
snapshot and an `Outcome` for the lookup, not methods of the class.

Inputs stand in for everything the code reads from outside:

- the session user, from `getCurrentUser`;
- `Date.now()`, once per photo;
- `new Date().toISOString()`;
- the bucket's public-URL function;
- the page path;
- the rows returned by the schema query.
- on the home page, the auth event delivered to the subscription and the result of the profile
  lookup that start-up and the event handler make (`App.AppState.InitializeAuth`,
  `App.AppState.HandleAuthEvent`).

Each operation that changes state is a method proved equal to a specification function over
the immutable `Store.Tables` value:

- `CreateListingSpec`;
- `DeleteListingSpec`;
- `UpsertProfileSpec`;
- `UploadAvatarSpec`.

The lemmas state the source's guarantees about those functions. The photo loop of
`createListing` keeps the loop invariant `db.Snapshot() == Stored(t1, b, i)`: after `i` rounds,
exactly the first `i` photos have a file and a row. `FirstFailure` is the index of the first
photo whose upload or row insert fails.

JavaScript semantics are written out where they matter:

- `split(sep)` followed by `pop()` or `[0]` (`Text.Split`, `LastPiece`, `FirstPiece`);
- `||` against `??` on optional strings (`Common.Truthy`, `OrElse`);
- the exact code-point set of the regular-expression class `\s`;
- `String.length` counted in UTF-16 code units;
- integers written in decimal by template literals.

## Model

| member | source | states |
|---|---|---|
| Text.Split | listings.js:44 | `split` on one character gives at least one piece, and no piece contains the separator |
| Text.JoinSplit | listings.js:44 | joining the pieces of a split with the separator gives back the original string |
| Text.SplitJoin | listings.js:44 | splitting a join of separator-free pieces gives the pieces back |
| Text.LastPieceIsAfterLastSeparator | listings.js:44 | `split(sep).pop()` is the separator-free tail after the last separator. It is preceded by a separator unless it is the whole string, and it is the whole string exactly when there is no separator |
| Text.FirstPieceIsBeforeFirstSeparator | app.js:53 | `split(sep)[0]` is the separator-free head before the first separator. It is the whole string exactly when there is no separator |
| Text.LastPieceEquals | app.js:139 | the last `/`-segment of a path equals a separator-free name exactly when the path is that name or ends with the separator and that name |
| Text.Decimal | listings.js:45 | the decimal text of an integer is non-empty, all digits, and never has a leading zero |
| Text.ParseDecimalOfDecimal | listings.js:45 | reading the decimal text of `n` back gives `n` |
| Text.DecimalInjective | listings.js:45 | different integers have different decimal text |
| Text.CutAtSeparator | listings.js:45 | when two texts agree and neither head contains the separator, the first separator fixes the heads and the tails |
| StorageKeys.ExtensionIsAfterLastDot | listings.js:44 | the extension is the dot-free tail after the last `.` of the name, and a name without a `.` is its own extension |
| StorageKeys.ListingImageKeyInFolder | listings.js:45 | a photo key starts with `listings/{listingId}/` |
| StorageKeys.ListingImageKeyInjective | listings.js:44-45 | for one listing and one owner, a photo key determines its timestamp, index and extension |
| StorageKeys.AvatarKeyInjective | profiles.js:84-85 | for one user, an avatar key determines its timestamp and extension |
| StorageKeys.AvatarAndListingKeysDiffer | profiles.js:85 | an avatar key is never a listing-photo key, although both live in the same bucket |
| Auth.IsValidEmailMatchesPattern | auth.js:157-159 | the e-mail test accepts exactly the strings matching `^[^\s@]+@[^\s@]+\.[^\s@]+$` |
| Auth.AcceptedEmailMatchesPattern | auth.js:158 | every accepted address splits into a local part, `@`, a host, `.` and a suffix, each a non-empty run without whitespace or `@` |
| Auth.PatternPassesEmailTest | auth.js:158 | every string of that shape is accepted |
| Auth.ValidEmailShape | auth.js:158 | an accepted address has exactly one `@`, which is not its first character. The part after the `@` has a `.` that is neither its first nor its last character. There is no whitespace anywhere |
| Auth.Utf16Length | auth.js:164 | `password.length` counts UTF-16 code units: at least one and at most two per character |
| Auth.HasCharIn | auth.js:165-167 | a character-range test is true exactly when some character lies in the range |
| Auth.AnyRaised | auth.js:170 | `some(error => error)` is true exactly when some flag is set |
| Auth.ValidatePassword | auth.js:162-176 | `tooShort` holds exactly when the length is below 8. The three `no…` flags hold exactly when no character lies in `A`–`Z`, `a`–`z` or `0`–`9` respectively. `isValid` holds exactly when no flag is set |
| Auth.ExtendingKeepsPasswordValid | auth.js:163-170 | appending text never raises a cleared flag, so a valid password stays valid |
| Store.ImagesOf | listings.js:92 | the photo rows of one listing are exactly the table rows with that listing id |
| Store.ImagesNotOf | listings.js:191 | after deleting one listing's photo rows, exactly the rows of other listings remain |
| Store.ImagesOfAppend | listings.js:64-70 | appending rows adds their own rows to each listing's list, in order |
| Store.Backend.InsertListing | listings.js:26-30 | an accepted insert stores the row under the next identity value with no cover and answers that row. A refused insert changes nothing |
| Store.Backend.Upload | listings.js:48-50 | an accepted upload adds the key to the bucket |
| Store.Backend.Remove | listings.js:74 | an accepted remove deletes the key from the bucket |
| Store.Backend.InsertImage | listings.js:64-70 | an accepted insert appends the photo row |
| Store.Backend.UpdateCover | listings.js:83 | an accepted update sets the cover of that listing, if the row exists |
| Store.Backend.DeleteListing | listings.js:192 | an accepted delete removes the listing row |
| Store.Backend.DeleteImagesOf | listings.js:191 | an accepted delete removes that listing's photo rows |
| Store.Backend.UpsertProfile | profiles.js:22-25 | an accepted upsert writes the row under its id |
| Store.Backend.FetchListing | listings.js:87-95 | the fetch answers the row and its photo rows exactly when it is accepted and the row exists |
| Store.Backend.FetchOwner | listings.js:181-185 | the lookup answers the owner exactly when it is accepted and the row exists |
| Listings.FirstFailure | listings.js:42-78 | every photo before the answered index uploads and is recorded, and the photo at that index, if any, does not |
| Listings.NewRows | listings.js:64-70 | after `k` rounds there are `k` new rows, and row `j` is photo `j`'s row |
| Listings.NewKeys | listings.js:45-50 | the keys stored after `k` rounds include the key of every photo from `0` to `k-1` |
| Listings.NewKeysOnly | listings.js:45-50 | every key stored after `k` rounds is the key of one of photos `0` to `k-1`. With `NewKeys`, these are exactly those photos' keys |
| Listings.PhotoKeysDistinct | listings.js:44-45 | within one call, photos with different indices get different keys |
| Listings.KeyNotEarlier | listings.js:74 | the key removed after a failed row insert is not the key of any earlier photo |
| Listings.AbandonAfterUpload | listings.js:52-56 | after a failed upload, the listing row is deleted when that delete is accepted. The backend and the message are what the photo loop's specification gives for that failure |
| Listings.AbandonAfterRow | listings.js:72-77 | after a failed row insert, the photo's file is removed, then the listing row is deleted, each when accepted. The backend and the message are what the photo loop's specification gives for that failure |
| Listings.StorePhoto | listings.js:43-77 | one round stores photo `i`'s file and row, leaving exactly the first `i + 1` photos stored and answering the photo's public URL. Otherwise it ends the loop as the specification says for the first failure |
| Listings.UploadPhotos | listings.js:41-79 | the loop stores photos in input order until the first failure, then runs that failure's compensations. On success it collects one URL per photo, the first being photo 0's |
| Listings.CreateListing | listings.js:6-107 | the call's effect on the backend and its answer are `CreateListingSpec` of the state before it |
| Listings.CreateRejected | listings.js:8-35 | with nobody signed in, or a refused skeleton insert, the call fails with `User not authenticated` or the insert's message (else `Failed to insert listing`). The backend is untouched: nothing is uploaded, recorded or updated |
| Listings.CreateSucceeds | listings.js:15-102 | when everything succeeds, the new row has the next id, the user as owner, the six input fields, and (with photos and an accepted update) photo 0's URL as cover. No other listing or profile changes. The answer is the re-fetched row with its photo rows, or the skeleton row when the re-fetch fails |
| Listings.CreateRecordsPhotos | listings.js:41-79 | when everything succeeds, the new listing's photo rows are exactly one per photo, in input order. Every photo's file is stored, and other rows and files are kept |
| Listings.CreateUploadFails | listings.js:48-56 | when upload `k` fails, the call fails with `Failed to upload image: …`. The listing row is deleted when that delete is accepted. The files and rows of photos before `k` remain |
| Listings.CreateRowFails | listings.js:72-77 | when row insert `k` fails, the call fails with `Failed to save image metadata: …`. File `k` is removed when the remove is accepted, and the earlier photos' files are kept. The listing row is deleted when that delete is accepted. The earlier photos' rows remain |
| Listings.DeleteListing | listings.js:176-199 | the call's effect and answer are `DeleteListingSpec` of the state before it |
| Listings.DeleteRefused | listings.js:179-188 | with no user, a failed or empty lookup, or another owner, the call fails with the matching message and deletes nothing |
| Listings.DeleteByOwner | listings.js:190-195 | for the owner, the photo rows go first, when accepted, and other listings' rows keep their order. Then the listing row goes. The call succeeds exactly when the second delete is accepted. Files are never touched |
| Listings.DeleteTwiceNotFound | listings.js:181-187 | after a successful delete, deleting again answers `Listing not found` and changes nothing |
| Profiles.UpsertRecordFields | profiles.js:12-20 | the record's id is the session user's whatever the form sends. The name fields pass through. `bio` and `location` are empty exactly when falsy and are otherwise as given. `avatar_url` is null exactly when falsy |
| Profiles.CreateOrUpdateProfile | profiles.js:5-36 | the call's effect and answer are `UpsertProfileSpec` of the state before it |
| Profiles.UpsertTouchesOnlyOwnRow | profiles.js:7-31 | with no user, or a refused upsert, nothing changes and the matching error is answered. Otherwise only the user's own row is created or replaced, and the answer is that row |
| Profiles.UpsertKeepsWellFormed | profiles.js:22-25 | the upsert keeps the profiles table keyed by row id |
| Profiles.UpsertTwice | profiles.js:22-25 | sending the same form twice leaves the backend as sending it once |
| Profiles.GetProfile | profiles.js:39-57 | the lookup succeeds exactly when it is accepted and the row exists, and answers that row. A refused lookup answers the backend's message |
| Profiles.GetCurrentUserProfile | profiles.js:60-74 | no user gives `User not authenticated`. Otherwise the answer is exactly `getProfile` of the user's id |
| Profiles.ReadYourWrite | profiles.js:22-52 | after an accepted upsert, the user's own profile reads back as the row written |
| Profiles.UploadAvatar | profiles.js:77-103 | the call's effect and answer are `UploadAvatarSpec` of the state before it |
| Profiles.UploadAvatarEffect | profiles.js:79-98 | a URL is answered exactly when there is a user, a file name and an accepted upload. The upload adds exactly one key, in the avatar folder, that is not any listing photo's key, and answers its public URL. Every other case changes nothing, and a refused upload answers its message |
| Schema.GetSchema | mcp-supabase/index.js:34-39 | the answer's keys are exactly the tables named in the rows, and each table holds its entries in row order |
| Schema.ColumnsOfNonEmpty | mcp-supabase/index.js:36-37 | a table has entries exactly when some row names it |
| Schema.NoEmptyTable | mcp-supabase/index.js:36-37 | no table of the answer maps to an empty list |
| Schema.ColumnsOfPrefix | mcp-supabase/index.js:35-38 | the entries of the first `n` rows are a prefix of each table's list |
| Schema.RowPlacement | mcp-supabase/index.js:35-38 | row `i` is entry number `k` of its table, where `k` counts the earlier rows of that table |
| Schema.ColumnOrder | mcp-supabase/index.js:30-37 | of two rows of one table, the earlier row's entry comes first |
| Schema.DistinctTables | mcp-supabase/index.js:36 | each table some row names, once, and nothing else |
| Schema.DistinctTablesInFirstAppearanceOrder | mcp-supabase/index.js:34-37 | the tables are listed in the order their first rows come: of two listed tables, the earlier one has a row before any row of the later one |
| Schema.RegroupIsPermutation | mcp-supabase/index.js:35-38 | read back table by table, the answer holds exactly the input rows, each once. So the entries number as many as the rows |
| Schema.GetSchemaAsWritten | mcp-supabase/index.js:34-39 | over a plain object, the tool throws exactly when some table is named like an inherited member of `Object.prototype`. Otherwise it answers what the corrected loop answers |
| App.DisplayNameFallback | app.js:53 | the shown name is the profile's username when non-empty. Otherwise it is the e-mail text before the first `@` |
| App.ProfileSetupRedirectRule | app.js:133-144 | the redirect to `profile-setup.html` happens exactly when someone is signed in, the profile lookup failed or found no username, and the last path segment is `profile.html` or `create-listing.html` |
| App.AppState.constructor | app.js:7-8 | the page starts with no cached user and no cached profile |
| App.AppState.InitializeAuth | app.js:18-29 | start-up caches the session user. The profile is cached only when there is a user and its lookup succeeds, and otherwise kept. The navigation shown matches the cache, and without a user it is the log-in bar |
| App.AppState.HandleAuthEvent | app.js:32-43 | `SIGNED_IN` caches the session user, keeps the profile and answers the profile-setup redirect. `SIGNED_OUT` clears both and shows the log-in bar. Other events change nothing |
| App.CardFallbacks | app.js:186-205 | the card shows each field's own non-empty value, or else the fixed default picture, `No description provided` or `Unknown User`. No card field is ever empty |
| App.NewListingCardImage | app.js:186 | a listing created with photos and an accepted cover update shows photo 0 on its card when photo 0's public URL is non-empty. One created without photos shows the default picture |

## Left out

- Exception paths: the `try`/`catch` envelopes that answer `An unexpected error occurred` are
  not modelled. The model keeps two exceptions: `uploadAvatar` with a file that has no name,
  and, in `Schema.GetSchemaAsWritten`, the `TypeError` that `.push` throws when a table is
  named like an inherited member of `Object.prototype`.
- Listings.CreateListing: whether a query builder has `.catch` depends on the backend library
  version, which is not part of the model. If it does not, a failed upload or row insert would
  throw from the compensating delete instead of answering its message. The model answers the
  message.
- Listings.DeleteListing: the same holds for the photo-row delete. The model lets that delete
  fail quietly, and the listing delete still runs.
- Listings.CreateListing: the re-fetched row is modelled as the row and its photo rows. The
  embedded `profiles` record is left out, and so are the listed columns and ids of the photo
  rows. The photo rows are taken in table order; the backend promises no order for an embedded
  list.
- Store.Backend.InsertListing: a refused insert leaves `nextListingId` as it was. Postgres can
  draw an identity value before a constraint or row-level-security check refuses the row, so a
  real refused insert may use up an id. The other properties rely only on the new id being unused.
- Store.Backend: the public-URL function is an input and is never null. It may answer any
  text, the empty one included; a card then falls back to the default picture, which is why
  `App.NewListingCardImage` shows photo 0 only for a non-empty URL. How the bucket builds
  URLs, foreign keys, cascades and row-level security are backend behaviour outside this
  model.
- Profiles.CreateOrUpdateProfile: the answer is the record written, not the row the backend
  returns. A `username` or `full_name` absent from the form is modelled as null. The backend
  would leave such a column out of the upsert and keep its stored value.
- Schema.GetSchema: the answer is a map, so the key order of the tool's JSON answer is not
  part of it. That order is the order in which the loop inserts the tables, which the query's
  `ORDER BY table_name` fixes (JavaScript lists integer-like keys first, in numeric order); `Schema.DistinctTablesInFirstAppearanceOrder` states that order
  for the list of tables.
- Profiles.GetProfile: the message for a lookup that finds no row is taken to be the backend's
  "no rows" text, a constant here.
- Timestamps: `Date.now()` and `new Date().toISOString()` are inputs. Decimal output matches
  JavaScript only below 10^21, where JavaScript switches to exponent notation.
- Outside the modelled operations: the auth wrappers (`getCurrentUser`, `signUpUser`,
  `signInUser`, `signOutUser`, `resetPassword`, `onAuthStateChange`), plus `getAllListings`,
  `getUserListings`, `getListing` and the `query_table` tool. Each of these is a single backend
  call.
- Server and page plumbing: the database pool, the MCP transport and the environment
  configuration. The DOM is also left out: HTML templates, icons, event listeners, menus and
  `setupAuthUI`. Redirects are answered as a target page, not performed. Logging is left out.
- Concurrency: `checkProfileSetup` runs without being awaited. The model treats each handler
  call as atomic.

## Findings

| source | as written | input that shows it | evidently intended | confidence | as-written member | corrected member |
|---|---|---|---|---|---|---|
| mcp-supabase/index.js:34-37 | the grouping dictionary is a plain `{}`. For a table named like a member of `Object.prototype` (`constructor`, `toString`, `__proto__`, …), `schema[name]` finds the inherited member. It is truthy, so no list is created, and `push` on it throws | a database with one table `constructor` and one column: rows `[("constructor", "id", "integer")]` (`Schema.ConstructorTableBreaksSchema`) | a dictionary with only its own keys (`Object.create(null)` or a `Map`): every table gets its own column list | high (not executed) | Schema.GetSchemaAsWritten | Schema.GetSchema |
