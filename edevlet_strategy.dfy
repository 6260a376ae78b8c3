/** The e-Devlet OAuth 2.0 strategy: its configuration check, the scope
    list read from `EDEVLET_SCOPE`, the OAuth profile assembled from the
    userinfo response (OpenID Connect Core 1.0, section 5.1 claims) or from
    the passport profile, and `validate`, which resolves the account through
    the newer `AuthService` with provider `EDEVLET`. */
module EdevletStrategy {
  import opened Wrappers
  import opened Text
  import opened UserTable
  import opened Session
  import ApplicationAuthService

  const PROVIDER: string := "EDEVLET"
  const CONFIG_MISSING: string := "E-Devlet OAuth ayarlari eksik. Lutfen cevre degiskenlerini kontrol edin."
  const IDENTITY_MISSING: string := "E-Devlet kimlik bilgisi alinmadi"
  const USER_INFO_MISSING: string := "E-Devlet kullanici bilgisi alinmadi"
  /** The scope OpenID Connect requires (section 3.1.2.1). */
  const DEFAULT_SCOPE: seq<string> := ["openid"]

  /** The `EDEVLET_*` environment variables; `None` is an unset one. */
  datatype Env = Env(
    authUrl: Option<string>,
    tokenUrl: Option<string>,
    clientId: Option<string>,
    clientSecret: Option<string>,
    callbackUrl: Option<string>,
    scope: Option<string>,
    userInfoUrl: Option<string>)

  /** What is handed to the `passport-oauth2` strategy. */
  datatype OAuthOptions = OAuthOptions(
    authorizationURL: string,
    tokenURL: string,
    clientID: string,
    clientSecret: string,
    callbackURL: string,
    scope: seq<string>,
    state: bool)

  // ----- configuration -----------------------------------------------------

  /** The separators of `/[\s,]+/`. */
  predicate IsScopeSeparator(c: char) {
    IsSpace(c) || c == ','
  }

  /** `scope.split(/[\s,]+/).filter(Boolean)`. Splitting at every single
      separator instead of at runs of them only adds empty pieces, which
      the filter drops. */
  function ScopeWords(scope: string): seq<string> {
    NonEmpty(Split(scope, IsScopeSeparator))
  }

  /** `parseScope()`: `openid` alone when `EDEVLET_SCOPE` is unset or
      empty, the words of it otherwise. */
  function ParseScope(scope: Option<string>): seq<string> {
    if !Truthy(scope) then DEFAULT_SCOPE else ScopeWords(scope.value)
  }

  /** Unset or empty gives `["openid"]`; otherwise every entry is non-empty
      and free of separators, and the entries put together are the scope
      string with its separators taken out. */
  lemma ParseScopeSpec(scope: Option<string>)
    ensures !Truthy(scope) ==> ParseScope(scope) == ["openid"]
    ensures Truthy(scope) ==>
      && (forall i :: 0 <= i < |ParseScope(scope)| ==>
            ParseScope(scope)[i] != [] && Unseparated(ParseScope(scope)[i], IsScopeSeparator))
      && Concat(ParseScope(scope)) == Stripped(scope.value, IsScopeSeparator)
  {
    if Truthy(scope) {
      var pieces := Split(scope.value, IsScopeSeparator);
      SplitPieces(scope.value, IsScopeSeparator);
      ConcatNonEmpty(pieces);
      forall i | 0 <= i < |ParseScope(scope)|
        ensures Unseparated(ParseScope(scope)[i], IsScopeSeparator)
      {
        assert ParseScope(scope)[i] in pieces;
      }
    }
  }

  /** Entries keep their order: a separator splits the words of the two
      sides apart. */
  lemma ScopeWordsAppend(a: string, c: char, b: string)
    requires IsScopeSeparator(c)
    ensures ScopeWords(a + [c] + b) == ScopeWords(a) + ScopeWords(b)
  {
    SplitAppend(a, c, b, IsScopeSeparator);
    NonEmptyAppend(Split(a, IsScopeSeparator), Split(b, IsScopeSeparator));
  }

  /** Words joined by any one separator are read back as those words. */
  lemma ParseScopeRoundTrip(words: seq<string>, d: char)
    requires IsScopeSeparator(d) && |words| >= 1
    requires forall i :: 0 <= i < |words| ==> words[i] != [] && Unseparated(words[i], IsScopeSeparator)
    ensures ParseScope(Some(Join(words, d))) == words
  {
    SplitJoin(words, d, IsScopeSeparator);
    NonEmptyKeepsAll(words);
    JoinStartsWith(words, d);
  }

  /** A set but blank scope such as `", ,"` gives no scope at all, not the
      default. */
  lemma {:induction false} ScopeOfSeparators(scope: string)
    requires forall k :: 0 <= k < |scope| ==> IsScopeSeparator(scope[k])
    ensures ScopeWords(scope) == []
  {
    if scope != [] {
      ScopeOfSeparators(scope[1..]);
    }
  }

  lemma {:induction false} JoinStartsWith(pieces: seq<string>, d: char)
    requires |pieces| >= 1
    ensures |Join(pieces, d)| >= |pieces[0]| && Join(pieces, d)[..|pieces[0]|] == pieces[0]
  {
    if |pieces| > 1 {
      assert Join(pieces, d) == pieces[0] + ([d] + Join(pieces[1..], d));
    }
  }

  /** The constructor's check: every one of the five URLs and credentials
      must be set and non-empty; then the options take them as they are, the
      parsed scope, and `state: true`. */
  function Configure(env: Env): (r: Result<OAuthOptions, string>)
    ensures r.Failure? <==>
      !Truthy(env.authUrl) || !Truthy(env.tokenUrl) || !Truthy(env.clientId)
      || !Truthy(env.clientSecret) || !Truthy(env.callbackUrl)
    ensures r.Failure? ==> r.error == CONFIG_MISSING
    ensures r.Success? ==>
      && Some(r.value.authorizationURL) == env.authUrl && Some(r.value.tokenURL) == env.tokenUrl
      && Some(r.value.clientID) == env.clientId && Some(r.value.clientSecret) == env.clientSecret
      && Some(r.value.callbackURL) == env.callbackUrl
      && r.value.scope == ParseScope(env.scope) && r.value.state
  {
    if !Truthy(env.authUrl) || !Truthy(env.tokenUrl) || !Truthy(env.clientId)
       || !Truthy(env.clientSecret) || !Truthy(env.callbackUrl)
    then Failure(CONFIG_MISSING)
    else Success(OAuthOptions(env.authUrl.value, env.tokenUrl.value, env.clientId.value,
                              env.clientSecret.value, env.callbackUrl.value, ParseScope(env.scope), true))
  }

  // ----- the OAuth profile -------------------------------------------------

  /** A value of the passport profile record: absent, a string, or a value
      of another type. */
  datatype Claim = Absent | Str(s: string) | NonString

  /** The passport profile fields read; `givenName` and `familyName` are the
      `given_name` and `family_name` claims. */
  datatype PassportProfile = PassportProfile(
    id: Claim,
    sub: Claim,
    email: Claim,
    givenName: Claim,
    firstName: Claim,
    familyName: Claim,
    lastName: Claim)

  /** The userinfo response body, as typed by `OAuthUserInfo`. */
  datatype UserInfo = UserInfo(
    sub: Option<string>,
    id: Option<string>,
    email: Option<string>,
    givenName: Option<string>,
    familyName: Option<string>,
    firstName: Option<string>,
    lastName: Option<string>)

  /** The outcome of the userinfo request: it threw, or it answered with a
      body that may be `null`. */
  datatype Fetch = FetchFailed | Fetched(data: Option<UserInfo>)

  const EMPTY_USER_INFO: UserInfo := UserInfo(None, None, None, None, None, None, None)

  /** `typeof c === 'string' ? c : undefined`. */
  function StringOf(c: Claim): Option<string> {
    match c
    case Str(s) => Some(s)
    case _ => None
  }

  /** The passport profile's identifier: `id` when it is a string, else `sub`. */
  function PassportIdentifier(profile: PassportProfile): Option<string> {
    StringOf(profile.id).OrElse(StringOf(profile.sub))
  }

  /** The identifier with a userinfo body: `sub`, `id`, then the passport's. */
  function UserInfoIdentifier(data: UserInfo, profile: PassportProfile): Option<string> {
    data.sub.OrElse(data.id).OrElse(PassportIdentifier(profile))
  }

  /** The profile built from a userinfo body, or `None` when no identifier
      is found; each field prefers the body over the passport profile. */
  function FromUserInfo(data: UserInfo, profile: PassportProfile): Option<OAuthProfile> {
    var identifier := UserInfoIdentifier(data, profile);
    if !Truthy(identifier) then None
    else Some(OAuthProfile(
      identifier.value,
      data.email.OrElse(StringOf(profile.email)),
      data.givenName.OrElse(data.firstName).OrElse(StringOf(profile.givenName)).OrElse(StringOf(profile.firstName)),
      data.familyName.OrElse(data.lastName).OrElse(StringOf(profile.familyName)).OrElse(StringOf(profile.lastName))))
  }

  /** The profile built from the passport profile alone. */
  function FromPassport(profile: PassportProfile): Result<OAuthProfile, AuthError> {
    var identifier := PassportIdentifier(profile);
    if !Truthy(identifier) then Failure(Unauthorized(IDENTITY_MISSING))
    else Success(OAuthProfile(
      identifier.value,
      StringOf(profile.email),
      StringOf(profile.givenName).OrElse(StringOf(profile.firstName)),
      StringOf(profile.familyName).OrElse(StringOf(profile.lastName))))
  }

  /** `fetchUserProfile`: with a non-empty userinfo URL the request's
      outcome decides, and every failure inside the `try`, a missing
      identifier included, becomes "kullanici bilgisi alinmadi"; without one
      only the passport profile is read. */
  function FetchUserProfile(userInfoURL: Option<string>, fetched: Fetch, profile: PassportProfile)
    : Result<OAuthProfile, AuthError>
  {
    if Truthy(userInfoURL) then
      match fetched
      case FetchFailed => Failure(Unauthorized(USER_INFO_MISSING))
      case Fetched(data) =>
        match FromUserInfo(data.GetOr(EMPTY_USER_INFO), profile)
        case None => Failure(Unauthorized(USER_INFO_MISSING))
        case Some(p) => Success(p)
    else FromPassport(profile)
  }

  /** Without a userinfo URL the request is never consulted. The identifier
      is `profile.id` when that is a string, else `profile.sub` when that is
      one; the call fails with "kimlik bilgisi alinmadi" exactly when that
      choice is missing or empty, so an empty string `id` is chosen and
      refused even when `sub` would do. */
  lemma PassportProfileSpec(userInfoURL: Option<string>, fetched: Fetch, other: Fetch, profile: PassportProfile)
    requires !Truthy(userInfoURL)
    ensures var r := FetchUserProfile(userInfoURL, fetched, profile);
      && r == FetchUserProfile(userInfoURL, other, profile)
      && (r.Failure? <==> !((profile.id.Str? && profile.id.s != [])
                            || (!profile.id.Str? && profile.sub.Str? && profile.sub.s != [])))
      && (r.Failure? ==> r.error == Unauthorized(IDENTITY_MISSING))
      && (r.Success? && profile.id.Str? ==> r.value.id == profile.id.s)
      && (r.Success? && !profile.id.Str? ==> r.value.id == profile.sub.s)
      && (profile.id == Str("") ==> r.Failure?)
  {
  }

  /** With a userinfo URL, a failed request, or a body and profile with no
      usable identifier, gives "kullanici bilgisi alinmadi"; the identifier
      is the first present of the body's `sub` and `id` and the passport's
      string `id` and `sub`, and it must not be empty. */
  lemma UserInfoProfileSpec(userInfoURL: Option<string>, fetched: Fetch, profile: PassportProfile)
    requires Truthy(userInfoURL)
    ensures var r := FetchUserProfile(userInfoURL, fetched, profile);
      && (fetched.FetchFailed? ==> r == Failure(Unauthorized(USER_INFO_MISSING)))
      && (r.Failure? ==> r.error == Unauthorized(USER_INFO_MISSING))
      && (fetched.Fetched? ==>
            var data := fetched.data.GetOr(EMPTY_USER_INFO);
            && (data.sub.Some? ==> (r.Success? <==> data.sub.value != []) && (r.Success? ==> r.value.id == data.sub.value))
            && (data.sub.None? && data.id.Some? ==>
                  (r.Success? <==> data.id.value != []) && (r.Success? ==> r.value.id == data.id.value))
            && (data.sub.None? && data.id.None? ==>
                  && (r.Success? <==> Truthy(PassportIdentifier(profile)))
                  && (r.Success? ==> Some(r.value.id) == PassportIdentifier(profile))))
  {
  }

  /** The names and the email prefer the userinfo body over the passport
      profile, and within each source `given_name` over `firstName` and
      `family_name` over `lastName`. */
  lemma UserInfoFieldPreference(data: UserInfo, profile: PassportProfile)
    requires FromUserInfo(data, profile).Some?
    ensures var p := FromUserInfo(data, profile).value;
      && (data.email.Some? ==> p.email == data.email)
      && (data.email.None? ==> p.email == StringOf(profile.email))
      && (data.givenName.Some? ==> p.firstName == data.givenName)
      && (data.givenName.None? && data.firstName.Some? ==> p.firstName == data.firstName)
      && (data.givenName.None? && data.firstName.None? && profile.givenName.Str? ==>
            p.firstName == Some(profile.givenName.s))
      && (data.givenName.None? && data.firstName.None? && !profile.givenName.Str? ==>
            p.firstName == StringOf(profile.firstName))
      && (data.familyName.Some? ==> p.lastName == data.familyName)
      && (data.familyName.None? && data.lastName.Some? ==> p.lastName == data.lastName)
      && (data.familyName.None? && data.lastName.None? && profile.familyName.Str? ==>
            p.lastName == Some(profile.familyName.s))
      && (data.familyName.None? && data.lastName.None? && !profile.familyName.Str? ==>
            p.lastName == StringOf(profile.lastName))
  {
  }

  // ----- the strategy --------------------------------------------------------

  class EdevletStrategy {
    const authService: ApplicationAuthService.AuthService
    const options: OAuthOptions
    /** `EDEVLET_USERINFO_URL`, kept as read, empty or not. */
    const userInfoURL: Option<string>

    constructor (authService: ApplicationAuthService.AuthService, options: OAuthOptions, userInfoURL: Option<string>)
      ensures this.authService == authService && this.options == options && this.userInfoURL == userInfoURL
    {
      this.authService := authService;
      this.options := options;
      this.userInfoURL := userInfoURL;
    }

    /** `validate`: build the OAuth profile, then resolve the account with
        provider `EDEVLET`. A profile that cannot be built is refused before
        any table is read. `fetched` is the userinfo request's outcome; the
        access token only authorises that request. */
    method Validate(profile: PassportProfile, fetched: Fetch, passwordHash: string)
      returns (r: Result<AuthenticatedUser, AuthError>)
      requires authService.Valid()
      modifies authService.userRepository.prisma
      ensures authService.Valid()
      ensures FetchUserProfile(userInfoURL, fetched, profile).Failure? ==>
        && r == Failure(FetchUserProfile(userInfoURL, fetched, profile).error)
        && authService.userRepository.prisma.State() == old(authService.userRepository.prisma.State())
      ensures FetchUserProfile(userInfoURL, fetched, profile).Success? ==>
        var (resolved, after) := OAuthResolve(authService.userRepository.prisma.roles,
                                              old(authService.userRepository.prisma.State()), PROVIDER,
                                              FetchUserProfile(userInfoURL, fetched, profile).value, passwordHash);
        && authService.userRepository.prisma.State() == after
        && r == (match resolved case Success(u) => Success(UserView(u)) case Failure(e) => Failure(StoreFailure(e)))
    {
      var userProfile := FetchUserProfile(userInfoURL, fetched, profile);
      match userProfile {
        case Failure(e) => return Failure(e);
        case Success(p) =>
          r := authService.HandleOAuthUser(PROVIDER, p, passwordHash);
      }
    }
  }

  /** The constructor, which throws on an incomplete configuration and
      otherwise registers the options and keeps `EDEVLET_USERINFO_URL`. */
  method NewEdevletStrategy(authService: ApplicationAuthService.AuthService, env: Env)
    returns (r: Result<EdevletStrategy, string>)
    ensures r.Failure? <==> Configure(env).Failure?
    ensures r.Failure? ==> r.error == CONFIG_MISSING
    ensures r.Success? ==>
      && fresh(r.value) && r.value.authService == authService
      && Configure(env) == Success(r.value.options) && r.value.userInfoURL == env.userInfoUrl
  {
    var options := Configure(env);
    match options {
      case Failure(e) => return Failure(e);
      case Success(o) =>
        var strategy := new EdevletStrategy(authService, o, env.userInfoUrl);
        return Success(strategy);
    }
  }
}
