/** `auth/user.py`: the current user comes from Facebook, else from Google,
    else is anonymous; a first login through either provider creates a user
    profile and a mapping to it (get-or-create). The datastore is an
    immutable record of the profiles and the two mappings; the providers'
    session state is passed in. */
module Auth {
  import opened Wrappers
  import opened Text

  /** A signed-in Google account (`users.User`). */
  datatype GoogleAccount = GoogleAccount(nickname: String, email: String)

  /** The request's Facebook object: its user id and whether `check_session` passes. */
  datatype FacebookSession = FacebookSession(uid: String, sessionValid: bool)

  /** The image JSON stored with a new profile:
      `{'type': 'gravatar', 'email': ...}` or `{'type': 'facebook', 'fbuid': ...}`. */
  datatype Image = Gravatar(email: String) | FacebookImage(fbuid: String)

  /** A `people.models.User` profile, as `create_new_user_profile` makes it. */
  datatype Profile = Profile(name: String, img: Image)

  /** The stored profiles (a profile is referred to by its position) and the
      `GoogleUser` and `FacebookUser` entities, each a key mapped to its profile. */
  datatype Accounts = Accounts(profiles: seq<Profile>, google: map<GoogleAccount, nat>, facebook: map<String, nat>)

  /** The user a request runs as. */
  datatype User = Anonymous | GoogleUser(account: GoogleAccount, profile: nat) | FacebookUser(fbuid: String, profile: nat)

  /** The result of a lookup: the store afterwards and the user found, if any. */
  datatype Lookup = Lookup(accounts: Accounts, user: Option<User>)

  /* ---------------------------------------------------------------------
     Users
     --------------------------------------------------------------------- */

  function IsAuthenticated(u: User): bool {
    !u.Anonymous?
  }

  /** `user()` / `.user`: the profile reference; none for the anonymous user. */
  function ProfileOf(u: User): Option<nat> {
    match u
    case Anonymous => None
    case GoogleUser(_, p) => Some(p)
    case FacebookUser(_, p) => Some(p)
  }

  function Name(u: User): String {
    match u
    case Anonymous => "Guest"
    case GoogleUser(g, _) => g.nickname
    case FacebookUser(uid, _) => uid
  }

  function Email(u: User): String {
    match u
    case Anonymous => "@"
    case GoogleUser(g, _) => g.email
    case FacebookUser(uid, _) => uid
  }

  /** The anonymous user is not authenticated, has no profile and is the
      guest with email `@`; both provider users are authenticated and have a
      profile; a Facebook user's name and email are its user id. */
  lemma UserFacts(u: User)
    ensures IsAuthenticated(u) <==> ProfileOf(u).Some?
    ensures u.Anonymous? ==> Name(u) == "Guest" && Email(u) == "@"
    ensures u.FacebookUser? ==> Name(u) == u.fbuid && Email(u) == u.fbuid
    ensures u.GoogleUser? ==> Name(u) == u.account.nickname && Email(u) == u.account.email
  {
  }

  /* ---------------------------------------------------------------------
     Store invariant
     --------------------------------------------------------------------- */

  /** Every mapping refers to a stored profile, and no profile is shared by
      two logins. */
  ghost predicate Consistent(a: Accounts) {
    (forall g :: g in a.google ==> a.google[g] < |a.profiles|) &&
    (forall f :: f in a.facebook ==> a.facebook[f] < |a.profiles|) &&
    (forall g, g' :: g in a.google && g' in a.google && a.google[g] == a.google[g'] ==> g == g') &&
    (forall f, f' :: f in a.facebook && f' in a.facebook && a.facebook[f] == a.facebook[f'] ==> f == f') &&
    (forall g, f :: g in a.google && f in a.facebook ==> a.google[g] != a.facebook[f])
  }

  /** `create_new_user_profile(name, imgjson)`: a new profile at the end of the store. */
  function CreateProfile(a: Accounts, p: Profile): (r: (Accounts, nat))
    ensures r.1 == |a.profiles| && r.0.profiles == a.profiles + [p]
    ensures r.0.google == a.google && r.0.facebook == a.facebook
  {
    (a.(profiles := a.profiles + [p]), |a.profiles|)
  }

  /* ---------------------------------------------------------------------
     Providers
     --------------------------------------------------------------------- */

  /** `GoogleUser.getUser`: nothing without a signed-in account; the stored
      mapping if there is one; otherwise a new profile named after the
      nickname with a gravatar image, and a new mapping to it. */
  function GoogleGetUser(a: Accounts, signedIn: Option<GoogleAccount>): (r: Lookup)
    ensures r.user.None? <==> signedIn.None?
    ensures signedIn.None? ==> r.accounts == a
    ensures r.user.Some? ==> r.user.value.GoogleUser? && r.user.value.account == signedIn.value
    ensures r.user.Some? ==>
      (signedIn.value in r.accounts.google && r.accounts.google[signedIn.value] == r.user.value.profile)
    ensures r.accounts.facebook == a.facebook
  {
    match signedIn
    case None => Lookup(a, None)
    case Some(g) =>
      if g in a.google then Lookup(a, Some(GoogleUser(g, a.google[g])))
      else
        var (a', i) := CreateProfile(a, Profile(g.nickname, Gravatar(g.email)));
        Lookup(a'.(google := a'.google[g := i]), Some(GoogleUser(g, i)))
  }

  /** `FacebookUser.getUser`: nothing unless the request carries a Facebook
      session that checks out; then get-or-create keyed by the user id, the
      new profile named after the id with a Facebook image. */
  function FacebookGetUser(a: Accounts, fb: Option<FacebookSession>): (r: Lookup)
    ensures r.user.None? <==> fb.None? || !fb.value.sessionValid
    ensures r.user.None? ==> r.accounts == a
    ensures r.user.Some? ==> r.user.value.FacebookUser? && r.user.value.fbuid == fb.value.uid
    ensures r.user.Some? ==>
      (fb.value.uid in r.accounts.facebook && r.accounts.facebook[fb.value.uid] == r.user.value.profile)
    ensures r.accounts.google == a.google
  {
    if fb.None? || !fb.value.sessionValid then Lookup(a, None)
    else
      var uid := fb.value.uid;
      if uid in a.facebook then Lookup(a, Some(FacebookUser(uid, a.facebook[uid])))
      else
        var (a', i) := CreateProfile(a, Profile(uid, FacebookImage(uid)));
        Lookup(a'.(facebook := a'.facebook[uid := i]), Some(FacebookUser(uid, i)))
  }

  /** `get_current_user`: Facebook first, then Google, else anonymous. */
  function CurrentUser(a: Accounts, fb: Option<FacebookSession>, signedIn: Option<GoogleAccount>): (r: (Accounts, User))
    ensures r.1.Anonymous? ==> r.0 == a
  {
    var f := FacebookGetUser(a, fb);
    if f.user.Some? then (f.accounts, f.user.value)
    else
      var g := GoogleGetUser(f.accounts, signedIn);
      if g.user.Some? then (g.accounts, g.user.value) else (g.accounts, Anonymous)
  }

  /* ---------------------------------------------------------------------
     Get-or-create
     --------------------------------------------------------------------- */

  /** A first Google login creates exactly one profile, named after the
      nickname with a gravatar of the account's email, and maps the account to it. */
  lemma GoogleFirstLogin(a: Accounts, g: GoogleAccount)
    requires g !in a.google
    ensures var r := GoogleGetUser(a, Some(g));
      r.accounts.profiles == a.profiles + [Profile(g.nickname, Gravatar(g.email))] &&
      r.accounts.google == a.google[g := |a.profiles|] &&
      r.user == Some(GoogleUser(g, |a.profiles|))
  {
  }

  /** A returning Google account gets its stored profile and nothing is created. */
  lemma GoogleReturning(a: Accounts, g: GoogleAccount)
    requires g in a.google
    ensures GoogleGetUser(a, Some(g)) == Lookup(a, Some(GoogleUser(g, a.google[g])))
  {
  }

  /** Logging in twice is logging in once: the second lookup finds the same
      user and changes nothing. */
  lemma GoogleIdempotent(a: Accounts, g: Option<GoogleAccount>)
    ensures var r := GoogleGetUser(a, g);
      GoogleGetUser(r.accounts, g) == r
  {
  }

  /** A first Facebook login creates exactly one profile, named after the
      user id with a Facebook image, and maps the id to it. */
  lemma FacebookFirstLogin(a: Accounts, uid: String)
    requires uid !in a.facebook
    ensures var r := FacebookGetUser(a, Some(FacebookSession(uid, true)));
      r.accounts.profiles == a.profiles + [Profile(uid, FacebookImage(uid))] &&
      r.accounts.facebook == a.facebook[uid := |a.profiles|] &&
      r.user == Some(FacebookUser(uid, |a.profiles|))
  {
  }

  /** Logging in twice through Facebook is logging in once. */
  lemma FacebookIdempotent(a: Accounts, fb: Option<FacebookSession>)
    ensures var r := FacebookGetUser(a, fb);
      FacebookGetUser(r.accounts, fb) == r
  {
  }

  /** A Google lookup keeps the store consistent, and the profile it returns is stored. */
  lemma GoogleConsistent(a: Accounts, g: Option<GoogleAccount>)
    requires Consistent(a)
    ensures Consistent(GoogleGetUser(a, g).accounts)
    ensures GoogleGetUser(a, g).user.Some? ==>
      GoogleGetUser(a, g).user.value.profile < |GoogleGetUser(a, g).accounts.profiles|
  {
    if g.Some? && g.value !in a.google {
      var acct := g.value;
      var i := |a.profiles|;
      var b := GoogleGetUser(a, g).accounts;
      assert b.google == a.google[acct := i];
      assert b.facebook == a.facebook;
      assert |b.profiles| == i + 1;
      forall x | x in b.google
        ensures b.google[x] < |b.profiles|
        ensures x != acct ==> b.google[x] != i
      {
      }
    }
  }

  /** A Facebook lookup keeps the store consistent, and the profile it returns is stored. */
  lemma FacebookConsistent(a: Accounts, fb: Option<FacebookSession>)
    requires Consistent(a)
    ensures Consistent(FacebookGetUser(a, fb).accounts)
    ensures FacebookGetUser(a, fb).user.Some? ==>
      FacebookGetUser(a, fb).user.value.profile < |FacebookGetUser(a, fb).accounts.profiles|
  {
    if fb.Some? && fb.value.sessionValid && fb.value.uid !in a.facebook {
      var uid := fb.value.uid;
      var i := |a.profiles|;
      var b := FacebookGetUser(a, fb).accounts;
      assert b.facebook == a.facebook[uid := i];
      assert b.google == a.google;
      assert |b.profiles| == i + 1;
      forall x | x in b.facebook
        ensures b.facebook[x] < |b.profiles|
        ensures x != uid ==> b.facebook[x] != i
      {
      }
    }
  }

  /** `get_current_user` keeps the store consistent. */
  lemma CurrentUserConsistent(a: Accounts, fb: Option<FacebookSession>, g: Option<GoogleAccount>)
    requires Consistent(a)
    ensures Consistent(CurrentUser(a, fb, g).0)
    ensures var r := CurrentUser(a, fb, g); ProfileOf(r.1).Some? ==> ProfileOf(r.1).value < |r.0.profiles|
  {
    FacebookConsistent(a, fb);
    GoogleConsistent(FacebookGetUser(a, fb).accounts, g);
  }

  /* ---------------------------------------------------------------------
     Provider order
     --------------------------------------------------------------------- */

  /** A valid Facebook session wins: the Google account is not consulted and
      no Google mapping is created. */
  lemma FacebookFirst(a: Accounts, fb: FacebookSession, g: Option<GoogleAccount>)
    requires fb.sessionValid
    ensures var r := CurrentUser(a, Some(fb), g);
      r.1.FacebookUser? && r.1.fbuid == fb.uid && r.0.google == a.google
  {
  }

  /** Without a valid Facebook session the Google account decides, and the
      Facebook mappings are untouched. */
  lemma GoogleSecond(a: Accounts, fb: Option<FacebookSession>, g: GoogleAccount)
    requires fb.None? || !fb.value.sessionValid
    ensures var r := CurrentUser(a, fb, Some(g));
      r.1.GoogleUser? && r.1.account == g && r.0.facebook == a.facebook
  {
  }

  /** With neither provider the user is anonymous and the store is unchanged. */
  lemma AnonymousLast(a: Accounts, fb: Option<FacebookSession>)
    requires fb.None? || !fb.value.sessionValid
    ensures CurrentUser(a, fb, None) == (a, Anonymous)
  {
  }

  /** The current user is authenticated exactly when some provider answers. */
  lemma CurrentUserAuthenticated(a: Accounts, fb: Option<FacebookSession>, g: Option<GoogleAccount>)
    ensures IsAuthenticated(CurrentUser(a, fb, g).1) <==> (fb.Some? && fb.value.sessionValid) || g.Some?
  {
  }
}
