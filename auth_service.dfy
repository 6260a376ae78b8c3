/** The older `AuthService`, wired to `UsersService` and
    `RefreshTokenService`: credential check, session issue, refresh-token
    rotation, logout, profile lookup and OAuth account resolution, each
    proved to behave as the matching function of `Session`. */
module AuthService {
  import opened Wrappers
  import opened RefreshTokenStore
  import opened UserTable
  import opened UsersService
  import opened RefreshTokenService
  import opened PrismaUserRepository
  import opened Session

  class AuthService {
    const usersService: UsersService
    const refreshTokenService: RefreshTokenService
    /** `JwtService.signAsync`. */
    const sign: JwtPayload -> string
    /** bcrypt `compare(plaintext, hash)`. */
    const compare: (string, string) -> bool
    const tokenExpiresInSeconds: nat

    /** `tokenExpiresInSeconds` is `parseExpiresIn()` of the `JWT_EXPIRES`
        seen at construction. */
    constructor (usersService: UsersService, sign: JwtPayload -> string, refreshTokenService: RefreshTokenService,
                 compare: (string, string) -> bool, jwtExpires: Option<string>)
      ensures this.usersService == usersService && this.refreshTokenService == refreshTokenService
      ensures this.sign == sign && this.compare == compare
      ensures tokenExpiresInSeconds == ParseExpiresIn(jwtExpires)
    {
      this.usersService := usersService;
      this.refreshTokenService := refreshTokenService;
      this.sign := sign;
      this.compare := compare;
      tokenExpiresInSeconds := ParseExpiresIn(jwtExpires);
    }

    ghost predicate Valid()
      reads usersService.prisma, refreshTokenService.prisma
    {
      usersService.prisma.Valid() && refreshTokenService.prisma.Valid()
    }

    function TokenIssuer(): Issuer {
      Issuer(refreshTokenService.policy, sign, tokenExpiresInSeconds)
    }

    /** `toAuthenticatedUser`: `mapRoles` and `collectPermissions` of the row. */
    method ToAuthenticatedUser(user: User) returns (v: AuthenticatedUser)
      ensures v == UserView(user)
    {
      var roles := MapRoles(user);
      var permissions := usersService.CollectPermissions(user);
      v := AuthenticatedUser(user.id, user.email, user.isActive, roles, permissions);
    }

    /** `null` for an unknown email, an inactive user or a wrong password;
        the user view otherwise. */
    method ValidateUser(email: string, password: string) returns (r: Option<AuthenticatedUser>)
      ensures r == Validate(compare, usersService.prisma.users, email, password)
    {
      var user := usersService.FindByEmail(email);
      if user.None? || !user.value.isActive {
        return None;
      }
      var passwordMatches := compare(password, user.value.password);
      if !passwordMatches {
        return None;
      }
      var v := ToAuthenticatedUser(user.value);
      return Some(v);
    }

    /** `buildAuthSession`: sign the payload, then store a new refresh token. */
    method BuildAuthSession(user: AuthenticatedUser, entropy: seq<byte>, now: int) returns (s: AuthSession)
      requires Valid() && |entropy| == ByteCount(refreshTokenService.policy.length)
      modifies refreshTokenService.prisma
      ensures Valid()
      ensures refreshTokenService.prisma.nextId == old(refreshTokenService.prisma.nextId) + 1
      ensures (s, refreshTokenService.prisma.records) ==
        Issue(TokenIssuer(), user, old(refreshTokenService.prisma.records), old(refreshTokenService.prisma.nextId), entropy, now)
    {
      var payload := Payload(user);
      var accessToken := sign(payload);
      var refreshToken, refreshTokenExpiresAt := refreshTokenService.GenerateToken(user.id, entropy, now);
      s := AuthSession(accessToken, refreshToken, refreshTokenExpiresAt, TOKEN_TYPE, tokenExpiresInSeconds, user);
    }

    method Login(user: AuthenticatedUser, entropy: seq<byte>, now: int) returns (s: AuthSession)
      requires Valid() && |entropy| == ByteCount(refreshTokenService.policy.length)
      modifies refreshTokenService.prisma
      ensures Valid()
      ensures refreshTokenService.prisma.nextId == old(refreshTokenService.prisma.nextId) + 1
      ensures (s, refreshTokenService.prisma.records) ==
        Issue(TokenIssuer(), user, old(refreshTokenService.prisma.records), old(refreshTokenService.prisma.nextId), entropy, now)
    {
      s := BuildAuthSession(user, entropy, now);
    }

    /** Look the token up, check its owner, revoke it, and issue a new
        session; `Session.Refresh` says what comes out. */
    method RefreshTokens(refreshToken: string, entropy: seq<byte>, now: int) returns (r: Result<AuthSession, AuthError>)
      requires Valid() && |entropy| == ByteCount(refreshTokenService.policy.length)
      modifies refreshTokenService.prisma
      ensures Valid()
      ensures refreshTokenService.prisma.nextId == old(refreshTokenService.prisma.nextId) + (if r.Success? then 1 else 0)
      ensures (r, refreshTokenService.prisma.records) ==
        Refresh(TokenIssuer(), usersService.prisma.users, old(refreshTokenService.prisma.records),
                old(refreshTokenService.prisma.nextId), refreshToken, entropy, now)
    {
      var storedToken := refreshTokenService.ResolveToken(refreshToken, now);
      if storedToken.Failure? {
        return Failure(Unauthorized(INVALID_REFRESH_TOKEN));
      }
      var user := usersService.FindById(storedToken.value.userId);
      if user.None? || !user.value.isActive {
        refreshTokenService.RevokeToken(refreshToken, now);
        return Failure(Unauthorized(USER_NOT_VERIFIED));
      }
      refreshTokenService.RevokeToken(refreshToken, now);
      var authUser := ToAuthenticatedUser(user.value);
      var session := BuildAuthSession(authUser, entropy, now);
      return Success(session);
    }

    method Logout(refreshToken: string, now: int)
      requires Valid()
      modifies refreshTokenService.prisma
      ensures Valid() && refreshTokenService.prisma.nextId == old(refreshTokenService.prisma.nextId)
      ensures refreshTokenService.prisma.records ==
        Session.Logout(refreshTokenService.policy, old(refreshTokenService.prisma.records), refreshToken, now)
    {
      refreshTokenService.RevokeToken(refreshToken, now);
    }

    /** NotFound for an unknown id; the view of the user, active or not. */
    method GetProfile(userId: nat) returns (r: Result<AuthenticatedUser, AuthError>)
      requires Valid()
      ensures r == Profile(usersService.prisma.users, userId)
    {
      var user := usersService.FindById(userId);
      if user.None? {
        return Failure(NotFound(USER_NOT_FOUND));
      }
      var v := ToAuthenticatedUser(user.value);
      return Success(v);
    }

    /** Resolve the account of an OAuth profile: by link, else by email (and
        link), else by creating it. `UsersService` declares no
        `findByAuthProvider`, `linkAuthProvider` or `createOAuthUser`; they
        are given the user repository's semantics, on the same tables. */
    method HandleOAuthUser(provider: string, profile: OAuthProfile, passwordHash: string)
      returns (r: Result<AuthenticatedUser, AuthError>)
      requires Valid()
      modifies usersService.prisma
      ensures Valid()
      ensures var (resolved, after) := OAuthResolve(usersService.prisma.roles, old(usersService.prisma.State()),
                                                    provider, profile, passwordHash);
        && usersService.prisma.State() == after
        && r == (match resolved case Success(u) => Success(UserView(u)) case Failure(e) => Failure(StoreFailure(e)))
    {
      var table := usersService.prisma;
      var link := ProviderLink(provider, profile.id);
      var user := table.FindFirstByAuthProvider(link);
      if user.None? && Truthy(profile.email) {
        user := usersService.FindByEmail(profile.email.value);
        if user.Some? {
          var linked := table.Upsert(user.value.id, link);
          match linked {
            case Failure(e) => return Failure(StoreFailure(e));
            case Success(_) =>
          }
        }
      }
      if user.None? {
        var input := NewUserInput(provider, profile);
        var created := table.Create(input.email, passwordHash, input.isActive.GetOr(true), OAuthUserRoles(input.roles), link);
        if created.Failure? {
          return Failure(StoreFailure(created.error));
        }
        user := Some(created.value);
      }
      var v := ToAuthenticatedUser(user.value);
      return Success(v);
    }
  }
}
