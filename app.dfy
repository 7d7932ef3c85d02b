/** The home page's session logic: the cached user and profile that the auth-event handler and
    the start-up code keep, the name shown in the navigation bar, the profile-setup redirect
    rule, and the fallbacks of a listing card. */
module App {
  import opened Common
  import opened Text
  import opened Store
  import Listings

  const ProfileSetupPage := "profile-setup.html"
  const DefaultImage := "https://qtrypzzcjebvfcihiynt.supabase.co/storage/v1/object/public/base44-prod/public/cc3d9dcc6_mathieu-andrieux-XRZxrcpgXKs-unsplash.jpg"
  const NoDescription := "No description provided"
  const UnknownUser := "Unknown User"

  /** The events the auth subscription delivers; only two of them are acted on. */
  datatype AuthEvent = SignedIn(user: User) | SignedOut | OtherEvent

  /** What `updateNavigation` renders: the member bar with a display name, or the log-in button. */
  datatype Navigation = MemberBar(username: string) | GuestBar

  /** `currentProfile?.username || currentUser.email.split('@')[0]` */
  function DisplayName(user: User, profile: Option<Profile>): string {
    if profile.Some? && Truthy(profile.value.username) then profile.value.username.value
    else FirstPiece(user.email, '@')
  }

  /** The shown name is the profile's username when it is non-empty; otherwise it is the part of
      the e-mail address before its first `@` (the whole address when it has none). */
  lemma DisplayNameFallback(user: User, profile: Option<Profile>)
    ensures var name := DisplayName(user, profile);
      && (profile.Some? && Truthy(profile.value.username) ==> name == profile.value.username.value)
      && (!(profile.Some? && Truthy(profile.value.username)) ==>
            && '@' !in name
            && |name| <= |user.email| && user.email[..|name|] == name
            && (|name| < |user.email| ==> user.email[|name|] == '@')
            && (name == user.email <==> '@' !in user.email))
  {
    FirstPieceIsBeforeFirstSeparator(user.email, '@');
  }

  /** The navigation bar for a cached user and profile. */
  function NavigationFor(user: Option<User>, profile: Option<Profile>): Navigation {
    if user.Some? then MemberBar(DisplayName(user.value, profile)) else GuestBar
  }

  /** `window.location.pathname.split('/').pop()` */
  function CurrentPage(pathname: string): string {
    LastPiece(pathname, '/')
  }

  /** `!profileResult.success || !profileResult.profile?.username` */
  predicate ProfileIncomplete(profileResult: Result<Profile>) {
    profileResult.Err? || !Truthy(profileResult.value.username)
  }

  /** `checkProfileSetup()`: where to send the browser, if anywhere. */
  function CheckProfileSetup(user: Option<User>, profileResult: Result<Profile>, pathname: string): Option<string> {
    if user.None? then None
    else if ProfileIncomplete(profileResult) && CurrentPage(pathname) in ["profile.html", "create-listing.html"]
    then Some(ProfileSetupPage)
    else None
  }

  /** The redirect happens exactly when someone is signed in, the profile is missing or has no
      username, and the path's last segment is `profile.html` or `create-listing.html`, that is,
      the path is that page name or ends with `/` and that page name. */
  lemma ProfileSetupRedirectRule(user: Option<User>, profileResult: Result<Profile>, pathname: string)
    ensures var r := CheckProfileSetup(user, profileResult, pathname);
      && (r.Some? ==> r.value == ProfileSetupPage)
      && (r.Some? <==> user.Some? && ProfileIncomplete(profileResult)
                       && (PageIs(pathname, "profile.html") || PageIs(pathname, "create-listing.html")))
  {
    LastPieceEquals(pathname, '/', "profile.html");
    LastPieceEquals(pathname, '/', "create-listing.html");
  }

  /** `pathname` names `page` as its last segment. */
  predicate PageIs(pathname: string, page: string) {
    pathname == page || (|pathname| > |page| && pathname[|pathname| - |page| - 1] == '/' && pathname[|pathname| - |page|..] == page)
  }

  /** The cached session of the page. */
  class AppState {
    var currentUser: Option<User>
    var currentProfile: Option<Profile>

    constructor ()
      ensures currentUser == None && currentProfile == None
    {
      currentUser := None;
      currentProfile := None;
    }

    /** What `updateNavigation` shows for the cached state. */
    function NavigationView(): Navigation
      reads this
    {
      NavigationFor(currentUser, currentProfile)
    }

    /** `initializeAuth()`: caches the session user, and the profile only when there is a user
        and the profile lookup succeeds; otherwise the cached profile is kept. */
    method InitializeAuth(user: Option<User>, profileResult: Result<Profile>) returns (nav: Navigation)
      modifies this
      ensures currentUser == user
      ensures currentProfile == if user.Some? && profileResult.Ok? then Some(profileResult.value) else old(currentProfile)
      ensures nav == NavigationView()
      ensures user.None? ==> nav == GuestBar
    {
      currentUser := user;
      if currentUser.Some? {
        if profileResult.Ok? {
          currentProfile := Some(profileResult.value);
        }
      }
      nav := NavigationFor(currentUser, currentProfile);
    }

    /** The `onAuthStateChange` handler. `SIGNED_IN` caches the session user, keeps the cached
        profile and runs the profile-setup check; `SIGNED_OUT` clears both; any other event
        changes nothing. Answers the navigation it renders and the redirect, if any. */
    method HandleAuthEvent(event: AuthEvent, profileResult: Result<Profile>, pathname: string)
      returns (nav: Option<Navigation>, redirect: Option<string>)
      modifies this
      ensures event.SignedIn? ==> currentUser == Some(event.user) && currentProfile == old(currentProfile)
      ensures event.SignedOut? ==> currentUser == None && currentProfile == None
      ensures event.OtherEvent? ==> currentUser == old(currentUser) && currentProfile == old(currentProfile)
      ensures nav == if event.OtherEvent? then None else Some(NavigationView())
      ensures event.SignedOut? ==> nav == Some(GuestBar)
      ensures redirect == if event.SignedIn? then CheckProfileSetup(currentUser, profileResult, pathname) else None
    {
      nav, redirect := None, None;
      if event.SignedIn? {
        currentUser := Some(event.user);
        nav := Some(NavigationFor(currentUser, currentProfile));
        redirect := CheckProfileSetup(currentUser, profileResult, pathname);
      } else if event.SignedOut? {
        currentUser := None;
        currentProfile := None;
        nav := Some(NavigationFor(currentUser, currentProfile));
      }
    }
  }

  // ---------------------------------------------------------------------------------------------
  // Listing cards

  /** The three fields of a listing card that fall back to text of their own. */
  datatype Card = Card(image: string, description: string, owner: string)

  /** `listing.image_url || default`, `listing.description || 'No description provided'` and
      `listing.profiles?.username || 'Unknown User'`. */
  function CardFor(imageUrl: Option<string>, description: Option<string>, ownerName: Option<string>): Card {
    Card(
      image := if Truthy(imageUrl) then imageUrl.value else DefaultImage,
      description := if Truthy(description) then description.value else NoDescription,
      owner := if Truthy(ownerName) then ownerName.value else UnknownUser)
  }

  /** Each card field is the listing's own non-empty value, or else its fixed fallback; so no
      card field is ever empty. */
  lemma CardFallbacks(imageUrl: Option<string>, description: Option<string>, ownerName: Option<string>)
    ensures var c := CardFor(imageUrl, description, ownerName);
      && (c.image == DefaultImage <== !Truthy(imageUrl)) && (Truthy(imageUrl) ==> c.image == imageUrl.value)
      && (c.description == NoDescription <== !Truthy(description)) && (Truthy(description) ==> c.description == description.value)
      && (c.owner == UnknownUser <== !Truthy(ownerName)) && (Truthy(ownerName) ==> c.owner == ownerName.value)
      && c.image != "" && c.description != "" && c.owner != ""
  {
  }

  /** A listing created with photos, whose cover update was accepted, shows its first photo on
      its card (when the bucket gives that photo a non-empty URL); one created without photos
      shows the default picture. */
  lemma NewListingCardImage(t: Tables, publicUrl: string -> string, user: Option<User>,
                            data: Listings.ListingInput, files: seq<Listings.ImageFile>, env: Listings.CreateEnv,
                            ownerName: Option<string>)
    requires WellFormed(t) && |env.steps| == |files|
    requires user.Some? && env.insert.Success? && Listings.FirstFailure(env.steps) == |files|
    ensures var t' := Listings.CreateListingSpec(t, publicUrl, user, data, files, env).0;
      var id := t.nextListingId;
      var b := Listings.Batch(id, user.value.id, files, env.steps, publicUrl);
      var card := CardFor(t'.listings[id].imageUrl, t'.listings[id].draft.description, ownerName);
      && (|files| > 0 && env.cover.Success? && publicUrl(Listings.Key(b, 0)) != "" ==> card.image == publicUrl(Listings.Key(b, 0)))
      && (|files| == 0 ==> card.image == DefaultImage)
  {
    Listings.CreateSucceeds(t, publicUrl, user, data, files, env);
  }
}
