/** What both `AuthService` versions do, as functions of the tables they
    read and write: the user view they hand out, the access-token payload,
    the access-token lifetime parsed from `JWT_EXPIRES`, and the outcome of
    credential checks, session issue, refresh, logout, profile lookup and
    OAuth account resolution. Both versions are proved against these. */
module Session {
  import opened Wrappers
  import opened Text
  import opened Permissions
  import opened RefreshTokenStore
  import opened UserTable
  import opened UsersService
  import opened PrismaUserRepository

  const INVALID_REFRESH_TOKEN: string := "Gecersiz veya suresi dolmus refresh token"
  const USER_NOT_VERIFIED: string := "Kullanici dogrulanamadi"
  const USER_NOT_FOUND: string := "Kullanici bulunamadi"
  const TOKEN_TYPE: string := "Bearer"

  datatype AuthenticatedUser = AuthenticatedUser(
    id: nat,
    email: string,
    isActive: bool,
    roles: seq<RoleSummary>,
    permissions: seq<string>)

  datatype OAuthProfile = OAuthProfile(
    id: string,
    email: Option<string>,
    firstName: Option<string>,
    lastName: Option<string>)

  /** The claims signed into the access token. */
  datatype JwtPayload = JwtPayload(sub: nat, email: string, roles: seq<string>, permissions: seq<string>)

  datatype AuthSession = AuthSession(
    accessToken: string,
    refreshToken: string,
    refreshTokenExpiresAt: int,
    tokenType: string,
    expiresIn: nat,
    user: AuthenticatedUser)

  /** `UnauthorizedException`, `NotFoundException`, or a refusal of the
      database passed on unchanged. */
  datatype AuthError = Unauthorized(message: string) | NotFound(message: string) | StoreFailure(error: StoreError)

  /** What a session service issues tokens with: the refresh-token policy
      of its store, the JWT signer and the parsed access-token lifetime. */
  datatype Issuer = Issuer(policy: TokenPolicy, sign: JwtPayload -> string, expiresIn: nat)

  // ----- parseExpiresIn ---------------------------------------------------

  const DEFAULT_JWT_EXPIRES: string := "1d"
  const FALLBACK_EXPIRES_IN: nat := 3600

  predicate IsUnit(c: char) {
    c in "smhdSMHD"
  }

  /** The lifetime in seconds that a `JWT_EXPIRES` value stands for: an
      all-digit string is a number of seconds, digits followed by one unit
      letter `s`, `m`, `h` or `d` (either case) scale by that unit, and
      anything else is an hour. */
  function ExpiresInSeconds(expires: string): nat {
    if expires != [] && AllDigits(expires) then DecimalValue(expires)
    else if |expires| >= 2 && AllDigits(expires[..|expires| - 1]) && IsUnit(expires[|expires| - 1]) then
      var value := DecimalValue(expires[..|expires| - 1]);
      match ToLowerChar(expires[|expires| - 1])
      case 's' => value
      case 'm' => value * 60
      case 'h' => value * 3600
      case 'd' => value * 86400
      case _ => FALLBACK_EXPIRES_IN
    else FALLBACK_EXPIRES_IN
  }

  /** `parseExpiresIn()`: `JWT_EXPIRES ?? '1d'`, then `ExpiresInSeconds`. */
  function ParseExpiresIn(jwtExpires: Option<string>): nat {
    ExpiresInSeconds(jwtExpires.GetOr(DEFAULT_JWT_EXPIRES))
  }

  /** Without `JWT_EXPIRES` the lifetime is one day. */
  lemma ParseExpiresInDefault()
    ensures ParseExpiresIn(None) == 86400
  {
    assert !IsDigit(DEFAULT_JWT_EXPIRES[1]);
    assert DEFAULT_JWT_EXPIRES[..1] == "1";
    assert DecimalValue("1") == 10 * DecimalValue("1"[..0]) + DigitValue('1');
  }

  /** An all-digit string is that many seconds, leading zeros included:
      every such string is some zeros followed by a number `n`, and it
      gives `n`. */
  lemma ExpiresInOfNumber(z: string, n: nat)
    requires AllZeros(z)
    ensures ExpiresInSeconds(z + Decimal(n)) == n
    ensures forall d :: d != [] && AllDigits(d) ==>
      exists zeros :: AllZeros(zeros) && d == zeros + Decimal(ExpiresInSeconds(d))
  {
    DecimalWithZeros(z, n);
    forall d | d != [] && AllDigits(d)
      ensures exists zeros :: AllZeros(zeros) && d == zeros + Decimal(ExpiresInSeconds(d))
    {
      DigitsCanonical(d);
    }
  }

  /** A number, with any leading zeros, followed by a unit letter in either
      case, is scaled by 1, 60, 3600 or 86400. */
  lemma ExpiresInOfUnit(z: string, n: nat, unit: char)
    requires AllZeros(z) && IsUnit(unit)
    ensures unit == 's' || unit == 'S' ==> ExpiresInSeconds(z + Decimal(n) + [unit]) == n
    ensures unit == 'm' || unit == 'M' ==> ExpiresInSeconds(z + Decimal(n) + [unit]) == n * 60
    ensures unit == 'h' || unit == 'H' ==> ExpiresInSeconds(z + Decimal(n) + [unit]) == n * 3600
    ensures unit == 'd' || unit == 'D' ==> ExpiresInSeconds(z + Decimal(n) + [unit]) == n * 86400
  {
    var s := z + Decimal(n) + [unit];
    assert !IsDigit(s[|s| - 1]);
    assert s[..|s| - 1] == z + Decimal(n);
    DecimalWithZeros(z, n);
  }

  /** Anything with a character that is neither a digit nor a unit letter
      closing at least one digit is an hour: the empty string, `10ms`,
      `1w`, a lone `d`, any separator. */
  lemma ExpiresInFallback(expires: string)
    requires expires == [] || exists k :: 0 <= k < |expires| && !IsDigit(expires[k])
                                         && !(k == |expires| - 1 && k > 0 && IsUnit(expires[k]))
    ensures ExpiresInSeconds(expires) == FALLBACK_EXPIRES_IN
  {
    if expires != [] {
      var k :| 0 <= k < |expires| && !IsDigit(expires[k]) && !(k == |expires| - 1 && k > 0 && IsUnit(expires[k]));
      assert !AllDigits(expires);
      if k < |expires| - 1 {
        assert expires[..|expires| - 1][k] == expires[k];
      }
    }
  }

  /** A value containing a space anywhere (including a leading or trailing
      one) is an hour: the patterns are anchored and admit no space. */
  lemma ExpiresInWithSpace(expires: string, k: nat)
    requires k < |expires| && IsSpace(expires[k])
    ensures ExpiresInSeconds(expires) == FALLBACK_EXPIRES_IN
  {
    assert !IsDigit(expires[k]);
    if k < |expires| - 1 {
      assert expires[..|expires| - 1][k] == expires[k];
    } else {
      assert !IsUnit(expires[k]);
    }
  }

  /** `10ms`, `1w` and the empty string are an hour. */
  lemma ExpiresInRejects()
    ensures ExpiresInSeconds("10ms") == FALLBACK_EXPIRES_IN
    ensures ExpiresInSeconds("1w") == FALLBACK_EXPIRES_IN
    ensures ExpiresInSeconds("") == FALLBACK_EXPIRES_IN
  {
    assert !IsDigit("10ms"[2]);
    assert !IsDigit("1w"[1]);
    assert !IsDigit("10ms"[..3][2]);
  }

  // ----- the user view and the access-token payload ------------------------

  /** `toAuthenticatedUser` of the older service: `mapRoles` and
      `collectPermissions` of the row. */
  function UserView(user: User): AuthenticatedUser {
    AuthenticatedUser(user.id, user.email, user.isActive, MapRoles(user), Distinct(PermissionNames(user.userRoles)))
  }

  /** `mapToAuthenticatedUser` of the newer service: id, email and activity
      kept, each role cut down to `{id, name}` in order, permissions copied. */
  function MapToAuthenticatedUser(user: UserAggregate): (v: AuthenticatedUser)
    ensures v.id == user.id && v.email == user.email && v.isActive == user.isActive
    ensures |v.roles| == |user.roles|
    ensures forall i :: 0 <= i < |v.roles| ==> v.roles[i] == RoleSummary(user.roles[i].id, user.roles[i].name)
    ensures v.permissions == user.permissions
  {
    AuthenticatedUser(user.id, user.email, user.isActive,
      seq(|user.roles|, i requires 0 <= i < |user.roles| => RoleSummary(user.roles[i].id, user.roles[i].name)),
      user.permissions)
  }

  /** Both services show a row to their callers the same way. */
  lemma ViewsAgree(user: User)
    ensures MapToAuthenticatedUser(Aggregate(user)) == UserView(user)
  {
    var a := MapToAuthenticatedUser(Aggregate(user));
    assert a.roles == MapRoles(user);
  }

  /** `{ sub: user.id, email: user.email, roles: role names, permissions }`. */
  function Payload(user: AuthenticatedUser): (p: JwtPayload)
    ensures p.sub == user.id && p.email == user.email && p.permissions == user.permissions
    ensures |p.roles| == |user.roles| && forall i :: 0 <= i < |p.roles| ==> p.roles[i] == user.roles[i].name
  {
    JwtPayload(user.id, user.email,
      seq(|user.roles|, i requires 0 <= i < |user.roles| => user.roles[i].name),
      user.permissions)
  }

  // ----- validateUser -----------------------------------------------------

  /** `validateUser`: the user view of the row with that email, when the row
      is active and the password matches its hash. */
  function Validate(compare: (string, string) -> bool, users: seq<User>, email: string, password: string): Option<AuthenticatedUser> {
    match EmailOwner(users, email)
    case None => None
    case Some(user) =>
      if !user.isActive then None
      else if !compare(password, user.password) then None
      else Some(UserView(user))
  }

  /** With unique emails, a user is returned exactly when there is an active
      row with that email whose hash matches the password, and it is that
      row's view. */
  lemma ValidateSpec(compare: (string, string) -> bool, users: seq<User>, email: string, password: string)
    requires forall i, j :: 0 <= i < j < |users| ==> users[i].email != users[j].email
    ensures Validate(compare, users, email, password).Some? <==>
      exists k :: 0 <= k < |users| && users[k].email == email && users[k].isActive && compare(password, users[k].password)
    ensures Validate(compare, users, email, password).Some? ==>
      exists k :: 0 <= k < |users| && users[k].email == email && Validate(compare, users, email, password).value == UserView(users[k])
  {
    var owner := EmailOwner(users, email);
    if owner.Some? {
      var i :| 0 <= i < |users| && users[i] == owner.value;
      forall k | 0 <= k < |users| && users[k].email == email ensures k == i {
      }
    }
  }

  // ----- sessions ---------------------------------------------------------

  /** `buildAuthSession`: sign the payload, store one new refresh-token row
      for the user (id `nextId`), and assemble the session. */
  function Issue(iss: Issuer, user: AuthenticatedUser, records: seq<TokenRecord>, nextId: nat, entropy: seq<byte>, now: int)
    : (AuthSession, seq<TokenRecord>)
    requires |entropy| == ByteCount(iss.policy.length)
  {
    var token := TokenFrom(iss.policy.length, entropy);
    var expiresAt := ExpiryFrom(iss.policy.ttlDays, now);
    (AuthSession(iss.sign(Payload(user)), token, expiresAt, TOKEN_TYPE, iss.expiresIn, user),
     records + [TokenRecord(nextId, user.id, iss.policy.sha256(token), expiresAt, None)])
  }

  /** A session carries a signed payload of its user, a `Bearer` token type,
      the parsed lifetime and a fresh refresh token whose row, the one row
      added, holds only its hash and is valid until the expiry. */
  lemma IssueSpec(iss: Issuer, user: AuthenticatedUser, records: seq<TokenRecord>, nextId: nat, entropy: seq<byte>, now: int)
    requires |entropy| == ByteCount(iss.policy.length)
    ensures var (s, out) := Issue(iss, user, records, nextId, entropy, now);
      && s.user == user && s.accessToken == iss.sign(Payload(user))
      && s.tokenType == "Bearer" && s.expiresIn == iss.expiresIn
      && |s.refreshToken| == iss.policy.length
      && (forall k :: 0 <= k < |s.refreshToken| ==> IsLowerHex(s.refreshToken[k]))
      && s.refreshTokenExpiresAt == now + iss.policy.ttlDays * SECONDS_PER_DAY
      && |out| == |records| + 1 && out[..|records|] == records
      && out[|records|] == TokenRecord(nextId, user.id, iss.policy.sha256(s.refreshToken), s.refreshTokenExpiresAt, None)
      && (iss.policy.ttlDays > 0 ==> HasValid(out, iss.policy.sha256(s.refreshToken), now))
  {
    var (s, out) := Issue(iss, user, records, nextId, entropy, now);
    assert out[..|records|] == records;
    if iss.policy.ttlDays > 0 {
      assert IsValidFor(out[|records|], iss.policy.sha256(s.refreshToken), now);
    }
  }

  /** `refreshTokens`: the presented token must be valid; its owner must
      exist and be active, else the token is revoked and the call refused;
      otherwise the token is revoked and a new session issued for the owner. */
  function Refresh(iss: Issuer, users: seq<User>, records: seq<TokenRecord>, nextId: nat,
                   token: string, entropy: seq<byte>, now: int): (Result<AuthSession, AuthError>, seq<TokenRecord>)
    requires |entropy| == ByteCount(iss.policy.length)
  {
    var tokenHash := iss.policy.sha256(token);
    match FirstValid(records, tokenHash, now)
    case None => (Failure(Unauthorized(INVALID_REFRESH_TOKEN)), records)
    case Some(k) =>
      var revoked := RevokeAll(records, ByHash(tokenHash), now);
      match UserAt(users, records[k].userId)
      case None => (Failure(Unauthorized(USER_NOT_VERIFIED)), revoked)
      case Some(user) =>
        if !user.isActive then (Failure(Unauthorized(USER_NOT_VERIFIED)), revoked)
        else
          var (session, out) := Issue(iss, UserView(user), revoked, nextId, entropy, now);
          (Success(session), out)
  }

  /** An invalid, expired or revoked token is refused as such, and nothing
      is revoked or created. */
  lemma RefreshRejectsInvalid(iss: Issuer, users: seq<User>, records: seq<TokenRecord>, nextId: nat,
                              token: string, entropy: seq<byte>, now: int)
    requires |entropy| == ByteCount(iss.policy.length)
    ensures var (r, out) := Refresh(iss, users, records, nextId, token, entropy, now);
      && (r == Failure(Unauthorized(INVALID_REFRESH_TOKEN)) <==> !HasValid(records, iss.policy.sha256(token), now))
      && (!HasValid(records, iss.policy.sha256(token), now) ==> out == records)
  {
  }

  /** A valid token whose owner is missing or inactive is revoked, the call
      is refused, and no new row is created. */
  lemma RefreshLocksOut(iss: Issuer, users: seq<User>, records: seq<TokenRecord>, nextId: nat,
                        token: string, entropy: seq<byte>, now: int)
    requires |entropy| == ByteCount(iss.policy.length)
    requires FirstValid(records, iss.policy.sha256(token), now).Some?
    requires var k := FirstValid(records, iss.policy.sha256(token), now).value;
      records[k].userId >= |users| || !users[records[k].userId].isActive
    ensures var (r, out) := Refresh(iss, users, records, nextId, token, entropy, now);
      && r == Failure(Unauthorized(USER_NOT_VERIFIED))
      && out == RevokeAll(records, ByHash(iss.policy.sha256(token)), now)
      && |out| == |records|
      && forall later :: !HasValid(out, iss.policy.sha256(token), later)
  {
    var h := iss.policy.sha256(token);
    forall later ensures !HasValid(RevokeAll(records, ByHash(h), now), h, later) {
      RevokeInvalidates(records, h, now, later);
    }
  }

  /** A successful refresh revokes the presented token and then adds exactly
      one row, for the owner of the presented token, who is active; the
      session is that owner's. */
  lemma RefreshRotates(iss: Issuer, users: seq<User>, records: seq<TokenRecord>, nextId: nat,
                       token: string, entropy: seq<byte>, now: int)
    requires |entropy| == ByteCount(iss.policy.length)
    requires Refresh(iss, users, records, nextId, token, entropy, now).0.Success?
    ensures var (r, out) := Refresh(iss, users, records, nextId, token, entropy, now);
      && var k := FirstValid(records, iss.policy.sha256(token), now).value;
      && records[k].userId < |users| && users[records[k].userId].isActive
      && r.value.user == UserView(users[records[k].userId])
      && |out| == |records| + 1
      && out[..|records|] == RevokeAll(records, ByHash(iss.policy.sha256(token)), now)
      && out[|records|] == TokenRecord(nextId, users[records[k].userId].id, iss.policy.sha256(r.value.refreshToken),
                                       r.value.refreshTokenExpiresAt, None)
      && r.value.tokenType == "Bearer" && r.value.expiresIn == iss.expiresIn
      && r.value.accessToken == iss.sign(Payload(r.value.user))
  {
    var h := iss.policy.sha256(token);
    var k := FirstValid(records, h, now).value;
    IssueSpec(iss, UserView(users[records[k].userId]), RevokeAll(records, ByHash(h), now), nextId, entropy, now);
  }

  /** Refresh tokens are single-use: once a refresh succeeds, unless the
      new token happens to hash like the old one, the old token is valid at
      no time afterwards, and refreshing with it again is refused. */
  lemma RefreshIsSingleUse(iss: Issuer, users: seq<User>, records: seq<TokenRecord>, nextId: nat,
                           token: string, entropy: seq<byte>, now: int,
                           nextId2: nat, entropy2: seq<byte>, later: int)
    requires |entropy| == ByteCount(iss.policy.length) && |entropy2| == ByteCount(iss.policy.length)
    requires Refresh(iss, users, records, nextId, token, entropy, now).0.Success?
    requires iss.policy.sha256(Refresh(iss, users, records, nextId, token, entropy, now).0.value.refreshToken)
             != iss.policy.sha256(token)
    ensures var (_, out) := Refresh(iss, users, records, nextId, token, entropy, now);
      && !HasValid(out, iss.policy.sha256(token), later)
      && Refresh(iss, users, out, nextId2, token, entropy2, later).0 == Failure(Unauthorized(INVALID_REFRESH_TOKEN))
  {
    var h := iss.policy.sha256(token);
    var (r, out) := Refresh(iss, users, records, nextId, token, entropy, now);
    RefreshRotates(iss, users, records, nextId, token, entropy, now);
    var revoked := RevokeAll(records, ByHash(h), now);
    RevokeInvalidates(records, h, now, later);
    forall j | 0 <= j < |out| ensures !IsValidFor(out[j], h, later) {
      if j < |records| {
        assert out[j] == revoked[j];
      }
    }
  }

  /** `logout`: revoke the presented token; it never fails. */
  function Logout(policy: TokenPolicy, records: seq<TokenRecord>, token: string, now: int): seq<TokenRecord> {
    RevokeAll(records, ByHash(policy.sha256(token)), now)
  }

  /** Logging out is idempotent, is a no-op for an unknown or already
      revoked token, and a refresh with a logged-out token is refused. */
  lemma LogoutSpec(iss: Issuer, users: seq<User>, records: seq<TokenRecord>, token: string, now: int,
                   nextId: nat, entropy: seq<byte>, later: int)
    requires |entropy| == ByteCount(iss.policy.length)
    ensures Logout(iss.policy, Logout(iss.policy, records, token, now), token, later) == Logout(iss.policy, records, token, now)
    ensures (forall k :: 0 <= k < |records| ==> records[k].tokenHash != iss.policy.sha256(token) || records[k].revokedAt.Some?)
            ==> Logout(iss.policy, records, token, now) == records
    ensures Refresh(iss, users, Logout(iss.policy, records, token, now), nextId, token, entropy, later).0
            == Failure(Unauthorized(INVALID_REFRESH_TOKEN))
  {
    var h := iss.policy.sha256(token);
    RevokeIdempotent(records, ByHash(h), now, later);
    RevokeInvalidates(records, h, now, later);
  }

  // ----- getProfile -------------------------------------------------------

  /** `getProfile`: the view of the user with that id, active or not. */
  function Profile(users: seq<User>, id: nat): (r: Result<AuthenticatedUser, AuthError>)
    ensures r.Failure? <==> id >= |users|
    ensures r.Failure? ==> r.error == NotFound(USER_NOT_FOUND)
    ensures r.Success? ==> r.value == UserView(users[id])
  {
    match UserAt(users, id)
    case None => Failure(NotFound(USER_NOT_FOUND))
    case Some(user) => Success(UserView(user))
  }

  // ----- handleOAuthUser --------------------------------------------------

  /** `profile.email` as a condition: absent and empty are both false. */
  predicate Truthy(email: Option<string>) {
    email.Some? && email.value != []
  }

  /** `${providerUserId}@${provider.toLowerCase()}.local`. */
  function FallbackEmail(provider: string, providerUserId: string): string {
    providerUserId + "@" + ToLower(provider) + ".local"
  }

  /** The `createOAuthUser` input of `handleOAuthUser`: `profile.email ??`
      the fallback address, no roles and no activity flag given. */
  function NewUserInput(provider: string, profile: OAuthProfile): CreateOAuthUserInput {
    CreateOAuthUserInput(profile.email.GetOr(FallbackEmail(provider, profile.id)), provider, profile.id, None, None)
  }

  /** `handleOAuthUser`'s account resolution: the owner of the provider link;
      else, when the profile has a non-empty email, the user with that email,
      who is linked; else a new user created with one link. */
  function OAuthResolve(roles: seq<Role>, t: Tables, provider: string, profile: OAuthProfile, passwordHash: string)
    : (Result<User, StoreError>, Tables)
  {
    var link := ProviderLink(provider, profile.id);
    match LinkOwner(t, link)
    case Some(user) => (Success(user), t)
    case None =>
      match (if Truthy(profile.email) then EmailOwner(t.users, profile.email.value) else None)
      case Some(user) =>
        var (linked, t2) := Upserted(t, user.id, link);
        if linked.Failure? then (Failure(linked.error), t2) else (Success(user), t2)
      case None =>
        var input := NewUserInput(provider, profile);
        Created(roles, t, input.email, passwordHash, input.isActive.GetOr(true), OAuthUserRoles(input.roles), link)
  }

  /** An existing link decides: its owner is returned and nothing changes. */
  lemma OAuthKnownLink(roles: seq<Role>, t: Tables, provider: string, profile: OAuthProfile, passwordHash: string)
    requires TablesValid(t)
    requires exists k :: 0 <= k < |t.links| && KeyOf(t.links[k]) == ProviderLink(provider, profile.id)
    ensures var (r, t2) := OAuthResolve(roles, t, provider, profile, passwordHash);
      && t2 == t && r.Success? && r.value in t.users
      && (forall k :: 0 <= k < |t.links| && KeyOf(t.links[k]) == ProviderLink(provider, profile.id) ==>
            t.links[k].userId == r.value.id)
  {
    LinkOwnerSpec(t, ProviderLink(provider, profile.id));
  }

  /** With no link but a user holding the profile's non-empty email, that
      user is returned and gets the link; no user is created. */
  lemma OAuthLinksByEmail(roles: seq<Role>, t: Tables, provider: string, profile: OAuthProfile, passwordHash: string)
    requires TablesValid(t)
    requires forall k :: 0 <= k < |t.links| ==> KeyOf(t.links[k]) != ProviderLink(provider, profile.id)
    requires Truthy(profile.email) && EmailOwner(t.users, profile.email.value).Some?
    ensures var (r, t2) := OAuthResolve(roles, t, provider, profile, passwordHash);
      && r == Success(EmailOwner(t.users, profile.email.value).value)
      && t2.users == t.users
      && t2.links == t.links + [AuthProvider(provider, profile.id, r.value.id)]
  {
    var link := ProviderLink(provider, profile.id);
    LinkOwnerSpec(t, link);
    var user := EmailOwner(t.users, profile.email.value).value;
    var i :| 0 <= i < |t.users| && t.users[i] == user;
    UpsertedSpec(t, user.id, link);
  }

  /** With neither, one user is created with `profile.email ??`
      `${id}@${provider}.local`, active, with the single role `USER` and the
      one link, unless the database refuses (no `USER` role, or the address
      is taken), in which case nothing changes. */
  lemma OAuthCreates(roles: seq<Role>, t: Tables, provider: string, profile: OAuthProfile, passwordHash: string)
    requires TablesValid(t)
    requires forall k :: 0 <= k < |t.links| ==> KeyOf(t.links[k]) != ProviderLink(provider, profile.id)
    requires !(Truthy(profile.email) && EmailOwner(t.users, profile.email.value).Some?)
    ensures var (r, t2) := OAuthResolve(roles, t, provider, profile, passwordHash);
      var email := profile.email.GetOr(FallbackEmail(provider, profile.id));
      && (r.Failure? <==> RoleNamed(roles, "USER", 0).None? || EmailOwner(t.users, email).Some?)
      && (r.Failure? ==> t2 == t)
      && (r.Success? ==>
            && r.value.id == |t.users| && r.value.email == email && r.value.password == passwordHash
            && r.value.isActive
            && |r.value.userRoles| == 1 && r.value.userRoles[0].role.name == "USER"
            && t2.users == t.users + [r.value]
            && t2.links == t.links + [AuthProvider(provider, profile.id, r.value.id)])
  {
    var link := ProviderLink(provider, profile.id);
    LinkOwnerSpec(t, link);
    var input := NewUserInput(provider, profile);
    CreatedSpec(roles, t, input.email, passwordHash, true, ["USER"], link);
    assert ["USER"][1..] == [];
  }

  /** Resolution keeps the tables valid, and a resolved user owns the link
      afterwards; so a second login with the same provider and id finds the
      same user and changes nothing. */
  lemma OAuthIdempotent(roles: seq<Role>, t: Tables, provider: string, profile: OAuthProfile, passwordHash: string,
                        again: OAuthProfile, passwordHash2: string)
    requires TablesValid(t)
    requires again.id == profile.id
    ensures var (r, t2) := OAuthResolve(roles, t, provider, profile, passwordHash);
      && TablesValid(t2)
      && (r.Success? ==> LinkOwner(t2, ProviderLink(provider, profile.id)) == Some(r.value))
      && (r.Success? ==> OAuthResolve(roles, t2, provider, again, passwordHash2) == (r, t2))
  {
    var link := ProviderLink(provider, profile.id);
    LinkOwnerSpec(t, link);
    match LinkOwner(t, link)
    case Some(user) =>
    case None =>
      var byEmail := if Truthy(profile.email) then EmailOwner(t.users, profile.email.value) else None;
      if byEmail.Some? {
        UpsertedSpec(t, byEmail.value.id, link);
        var i :| 0 <= i < |t.users| && t.users[i] == byEmail.value;
      } else {
        var input := NewUserInput(provider, profile);
        CreatedSpec(roles, t, input.email, passwordHash, true, ["USER"], link);
      }
  }
}
