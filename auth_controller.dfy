/** `AuthController`: the `/auth/login`, `/auth/refresh` and `/auth/logout`
    endpoints over the older `AuthService`. The refresh token travels only
    in the `refresh_token` cookie (RFC 6265, section 4.1.2 attributes, and
    `SameSite` from the RFC 6265bis draft); response bodies never hold it. */
module AuthController {
  import opened Wrappers
  import opened RefreshTokenStore
  import opened UserTable
  import opened Session
  import AuthService

  const REFRESH_COOKIE: string := "refresh_token"
  const COOKIE_PATH: string := "/auth"
  const REFRESH_TOKEN_MISSING: string := "Refresh token bulunamadi"
  /** The expiry `res.clearCookie` writes: `new Date(1)`, the epoch in whole
      seconds. */
  const EPOCH: int := 0

  datatype SameSite = SameSiteNone | SameSiteLax

  datatype CookieOptions = CookieOptions(
    httpOnly: bool,
    secure: bool,
    sameSite: SameSite,
    expires: Option<int>,
    path: string)

  /** One `Set-Cookie` of the response: a value and its attributes. */
  datatype Cookie = Cookie(value: string, options: CookieOptions)

  /** The request as the controller reads it: the cookies parsed by
      `cookie-parser`, when there are any. */
  datatype Request = Request(cookies: Option<map<string, string>>)

  /** The body of a login or refresh response. */
  datatype LoginResponsePayload = LoginResponsePayload(
    accessToken: string,
    tokenType: string,
    expiresIn: nat,
    user: AuthenticatedUser,
    refreshTokenExpiresAt: string)

  /** The Express response: what it will send as `Set-Cookie`, by name. */
  class Response {
    var cookies: map<string, Cookie>

    constructor ()
      ensures cookies == map[]
    {
      cookies := map[];
    }

    /** `res.cookie(name, value, options)`. */
    method SetCookie(name: string, value: string, options: CookieOptions)
      modifies this
      ensures cookies == old(cookies)[name := Cookie(value, options)]
    {
      cookies := cookies[name := Cookie(value, options)];
    }

    /** `res.clearCookie(name, options)`: an empty value that expired at
        the epoch, with the given attributes. */
    method ClearCookie(name: string, options: CookieOptions)
      modifies this
      ensures cookies == old(cookies)[name := Cookie("", options.(expires := Some(EPOCH)))]
    {
      cookies := cookies[name := Cookie("", options.(expires := Some(EPOCH)))];
    }
  }

  /** The attributes both the set and the clear use; only the set has an
      expiry of its own. */
  function RefreshCookieOptions(production: bool, expires: Option<int>): CookieOptions {
    CookieOptions(true, production, if production then SameSiteNone else SameSiteLax, expires, COOKIE_PATH)
  }

  /** What `setRefreshTokenCookie` writes. */
  function RefreshCookie(production: bool, token: string, expiresAt: int): Cookie {
    Cookie(token, RefreshCookieOptions(production, Some(expiresAt)))
  }

  /** What `clearRefreshTokenCookie` writes. */
  function ClearedRefreshCookie(production: bool): Cookie {
    Cookie("", RefreshCookieOptions(production, None).(expires := Some(EPOCH)))
  }

  /** The refresh cookie carries the token, is hidden from scripts, is sent
      only under `/auth`, expires with the token, is `Secure` exactly in
      production and `SameSite=None` there, `Lax` elsewhere; a
      `SameSite=None` cookie is always `Secure`, as browsers demand. */
  lemma RefreshCookieSpec(production: bool, token: string, expiresAt: int)
    ensures var c := RefreshCookie(production, token, expiresAt);
      && c.value == token && c.options.httpOnly && c.options.path == "/auth"
      && c.options.expires == Some(expiresAt)
      && (c.options.secure <==> production)
      && (c.options.sameSite == SameSiteNone <==> production)
      && (c.options.sameSite == SameSiteLax <==> !production)
      && (c.options.sameSite == SameSiteNone ==> c.options.secure)
  {
  }

  /** The cleared cookie has the set cookie's name, path and flags, so it
      replaces it (RFC 6265, section 5.3, step 11), and it holds no token and
      has already expired at any time after the epoch. */
  lemma ClearReplacesRefreshCookie(production: bool, token: string, expiresAt: int, now: int)
    requires now > EPOCH
    ensures var written := RefreshCookie(production, token, expiresAt);
      var cleared := ClearedRefreshCookie(production);
      && cleared.options == written.options.(expires := cleared.options.expires)
      && cleared.value == ""
      && cleared.options.expires.Some? && cleared.options.expires.value < now
  {
  }

  /** `extractRefreshToken`: `req.cookies?.refresh_token`. */
  function ExtractRefreshToken(req: Request): Option<string> {
    match req.cookies
    case None => None
    case Some(jar) => if REFRESH_COOKIE in jar then Some(jar[REFRESH_COOKIE]) else None
  }

  /** `toLoginResponsePayload`, with `toISOString` given as `iso`. */
  function LoginResponse(iso: int -> string, tokens: AuthSession, refreshTokenExpiresAt: int): LoginResponsePayload {
    LoginResponsePayload(tokens.accessToken, tokens.tokenType, tokens.expiresIn, tokens.user, iso(refreshTokenExpiresAt))
  }

  /** The body does not depend on the refresh token: two sessions that
      differ only in it give the same body. The other fields are the
      session's, and the expiry is rendered. */
  lemma LoginResponseHidesToken(iso: int -> string, s: AuthSession, other: string)
    ensures LoginResponse(iso, s.(refreshToken := other), s.refreshTokenExpiresAt)
            == LoginResponse(iso, s, s.refreshTokenExpiresAt)
    ensures var p := LoginResponse(iso, s, s.refreshTokenExpiresAt);
      && p.accessToken == s.accessToken && p.tokenType == s.tokenType && p.expiresIn == s.expiresIn
      && p.user == s.user && p.refreshTokenExpiresAt == iso(s.refreshTokenExpiresAt)
  {
  }

  /** The cookie round trip the HTTP flow relies on: a session issued at
      login for an active user can be refreshed with its token before it
      expires, provided no older valid row hashes like it; the refresh yields
      that user's session, and once its new token is logged out, refreshing
      with that token is refused. */
  lemma LoginRefreshLogout(iss: Issuer, users: seq<User>, records: seq<TokenRecord>, nextId: nat, id: nat,
                           e1: seq<byte>, e2: seq<byte>, e3: seq<byte>, login: int, refresh: int, logout: int, again: int)
    requires |e1| == ByteCount(iss.policy.length) && |e2| == ByteCount(iss.policy.length)
    requires |e3| == ByteCount(iss.policy.length)
    requires id < |users| && users[id].id == id && users[id].isActive
    requires refresh < ExpiryFrom(iss.policy.ttlDays, login)
    requires !HasValid(records, iss.policy.sha256(TokenFrom(iss.policy.length, e1)), refresh)
    ensures var (s1, r1) := Issue(iss, UserView(users[id]), records, nextId, e1, login);
      var (o2, r2) := Refresh(iss, users, r1, nextId + 1, s1.refreshToken, e2, refresh);
      && o2.Success? && o2.value.user == UserView(users[id])
      && Refresh(iss, users, Logout(iss.policy, r2, o2.value.refreshToken, logout), nextId + 2,
                 o2.value.refreshToken, e3, again).0 == Failure(Unauthorized(INVALID_REFRESH_TOKEN))
  {
    var (s1, r1) := Issue(iss, UserView(users[id]), records, nextId, e1, login);
    var row := TokenRecord(nextId, id, iss.policy.sha256(s1.refreshToken), s1.refreshTokenExpiresAt, None);
    assert r1 == records + [row];
    CreatedRowIsAddressable(records, row, refresh, refresh);
    var (o2, r2) := Refresh(iss, users, r1, nextId + 1, s1.refreshToken, e2, refresh);
    assert o2.Success?;
    LogoutSpec(iss, users, r2, o2.value.refreshToken, logout, nextId + 2, e3, again);
  }

  class AuthController {
    const authService: AuthService.AuthService
    /** `NODE_ENV`. */
    const nodeEnv: Option<string>
    /** `Date.prototype.toISOString`, on a time in seconds. */
    const iso: int -> string

    constructor (authService: AuthService.AuthService, nodeEnv: Option<string>, iso: int -> string)
      ensures this.authService == authService && this.nodeEnv == nodeEnv && this.iso == iso
    {
      this.authService := authService;
      this.nodeEnv := nodeEnv;
      this.iso := iso;
    }

    predicate IsProduction() {
      nodeEnv == Some("production")
    }

    method SetRefreshTokenCookie(res: Response, token: string, expiresAt: int)
      modifies res
      ensures res.cookies == old(res.cookies)[REFRESH_COOKIE := RefreshCookie(IsProduction(), token, expiresAt)]
    {
      res.SetCookie(REFRESH_COOKIE, token, RefreshCookieOptions(IsProduction(), Some(expiresAt)));
    }

    method ClearRefreshTokenCookie(res: Response)
      modifies res
      ensures res.cookies == old(res.cookies)[REFRESH_COOKIE := ClearedRefreshCookie(IsProduction())]
    {
      res.ClearCookie(REFRESH_COOKIE, RefreshCookieOptions(IsProduction(), None));
    }

    /** `POST /auth/login` for the user the local strategy accepted: a new
        session, its refresh token set as the cookie, the rest as the body. */
    method Login(user: AuthenticatedUser, res: Response, entropy: seq<byte>, now: int)
      returns (payload: LoginResponsePayload)
      requires authService.Valid() && |entropy| == ByteCount(authService.refreshTokenService.policy.length)
      modifies res, authService.refreshTokenService.prisma
      ensures authService.Valid()
      ensures var (s, records) := Issue(authService.TokenIssuer(), user, old(authService.refreshTokenService.prisma.records),
                                        old(authService.refreshTokenService.prisma.nextId), entropy, now);
        && authService.refreshTokenService.prisma.records == records
        && authService.refreshTokenService.prisma.nextId == old(authService.refreshTokenService.prisma.nextId) + 1
        && res.cookies == old(res.cookies)[REFRESH_COOKIE := RefreshCookie(IsProduction(), s.refreshToken, s.refreshTokenExpiresAt)]
        && payload == LoginResponse(iso, s, s.refreshTokenExpiresAt)
    {
      var session := authService.Login(user, entropy, now);
      SetRefreshTokenCookie(res, session.refreshToken, session.refreshTokenExpiresAt);
      payload := LoginResponse(iso, session, session.refreshTokenExpiresAt);
    }

    /** `POST /auth/refresh`: without a non-empty cookie the call is refused
        before the service is asked; otherwise the service's answer, and on
        success the new token replaces the cookie. */
    method Refresh(req: Request, res: Response, entropy: seq<byte>, now: int)
      returns (r: Result<LoginResponsePayload, AuthError>)
      requires authService.Valid() && |entropy| == ByteCount(authService.refreshTokenService.policy.length)
      modifies res, authService.refreshTokenService.prisma
      ensures authService.Valid()
      ensures !Truthy(ExtractRefreshToken(req)) ==>
        && r == Failure(Unauthorized(REFRESH_TOKEN_MISSING))
        && res.cookies == old(res.cookies)
        && authService.refreshTokenService.prisma.records == old(authService.refreshTokenService.prisma.records)
        && authService.refreshTokenService.prisma.nextId == old(authService.refreshTokenService.prisma.nextId)
      ensures Truthy(ExtractRefreshToken(req)) ==>
        var (outcome, records) := Session.Refresh(authService.TokenIssuer(), authService.usersService.prisma.users,
                                                  old(authService.refreshTokenService.prisma.records),
                                                  old(authService.refreshTokenService.prisma.nextId),
                                                  ExtractRefreshToken(req).value, entropy, now);
        && authService.refreshTokenService.prisma.records == records
        && authService.refreshTokenService.prisma.nextId ==
             old(authService.refreshTokenService.prisma.nextId) + (if outcome.Success? then 1 else 0)
        && (outcome.Failure? ==> r == Failure(outcome.error) && res.cookies == old(res.cookies))
        && (outcome.Success? ==>
              && r == Success(LoginResponse(iso, outcome.value, outcome.value.refreshTokenExpiresAt))
              && res.cookies == old(res.cookies)[REFRESH_COOKIE :=
                   RefreshCookie(IsProduction(), outcome.value.refreshToken, outcome.value.refreshTokenExpiresAt)])
    {
      var refreshToken := ExtractRefreshToken(req);
      if !Truthy(refreshToken) {
        return Failure(Unauthorized(REFRESH_TOKEN_MISSING));
      }
      var session := authService.RefreshTokens(refreshToken.value, entropy, now);
      match session {
        case Failure(e) => return Failure(e);
        case Success(s) =>
          SetRefreshTokenCookie(res, s.refreshToken, s.refreshTokenExpiresAt);
          return Success(LoginResponse(iso, s, s.refreshTokenExpiresAt));
      }
    }

    /** `POST /auth/logout` (204): the cookie is always cleared; the token is
        revoked only when a non-empty one was presented. */
    method Logout(req: Request, res: Response, now: int)
      requires authService.Valid()
      modifies res, authService.refreshTokenService.prisma
      ensures authService.Valid()
      ensures res.cookies == old(res.cookies)[REFRESH_COOKIE := ClearedRefreshCookie(IsProduction())]
      ensures authService.refreshTokenService.prisma.nextId == old(authService.refreshTokenService.prisma.nextId)
      ensures authService.refreshTokenService.prisma.records ==
        if Truthy(ExtractRefreshToken(req))
        then Session.Logout(authService.refreshTokenService.policy, old(authService.refreshTokenService.prisma.records),
                            ExtractRefreshToken(req).value, now)
        else old(authService.refreshTokenService.prisma.records)
    {
      var refreshToken := ExtractRefreshToken(req);
      ClearRefreshTokenCookie(res);
      if Truthy(refreshToken) {
        authService.Logout(refreshToken.value, now);
      }
    }
  }
}
