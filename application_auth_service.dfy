/** The newer `AuthService`, wired to the abstract `UserRepository` and
    `RefreshTokenRepository` (their Prisma implementations here): the same
    operations as the older service, proved against the same functions of
    `Session`, so the two versions agree on every input. */
module ApplicationAuthService {
  import opened Wrappers
  import opened RefreshTokenStore
  import opened UserTable
  import opened PrismaRefreshTokenRepository
  import opened PrismaUserRepository
  import opened Session

  class AuthService {
    const userRepository: PrismaUserRepository
    const refreshTokenRepository: PrismaRefreshTokenRepository
    /** `JwtService.signAsync`. */
    const sign: JwtPayload -> string
    /** bcrypt `compare(plaintext, hash)`. */
    const compare: (string, string) -> bool
    const tokenExpiresInSeconds: nat

    /** `tokenExpiresInSeconds` is `parseExpiresIn()` of the `JWT_EXPIRES`
        seen at construction. */
    constructor (userRepository: PrismaUserRepository, refreshTokenRepository: PrismaRefreshTokenRepository,
                 sign: JwtPayload -> string, compare: (string, string) -> bool, jwtExpires: Option<string>)
      ensures this.userRepository == userRepository && this.refreshTokenRepository == refreshTokenRepository
      ensures this.sign == sign && this.compare == compare
      ensures tokenExpiresInSeconds == ParseExpiresIn(jwtExpires)
    {
      this.userRepository := userRepository;
      this.refreshTokenRepository := refreshTokenRepository;
      this.sign := sign;
      this.compare := compare;
      tokenExpiresInSeconds := ParseExpiresIn(jwtExpires);
    }

    ghost predicate Valid()
      reads userRepository.prisma, refreshTokenRepository.prisma
    {
      userRepository.prisma.Valid() && refreshTokenRepository.prisma.Valid()
    }

    function TokenIssuer(): Issuer {
      Issuer(refreshTokenRepository.policy, sign, tokenExpiresInSeconds)
    }

    /** `null` for an unknown email, an inactive user or a wrong password;
        the user view otherwise. */
    method ValidateUser(email: string, password: string) returns (r: Option<AuthenticatedUser>)
      ensures r == Validate(compare, userRepository.prisma.users, email, password)
    {
      var user := userRepository.FindByEmail(email);
      if user.None? || !user.value.isActive {
        return None;
      }
      var passwordMatches := compare(password, user.value.passwordHash);
      if !passwordMatches {
        return None;
      }
      ViewsAgree(EmailOwner(userRepository.prisma.users, email).value);
      return Some(MapToAuthenticatedUser(user.value));
    }

    /** `buildAuthSession`: sign the payload, then store a new refresh token. */
    method BuildAuthSession(user: AuthenticatedUser, entropy: seq<byte>, now: int) returns (s: AuthSession)
      requires Valid() && |entropy| == ByteCount(refreshTokenRepository.policy.length)
      modifies refreshTokenRepository.prisma
      ensures Valid()
      ensures refreshTokenRepository.prisma.nextId == old(refreshTokenRepository.prisma.nextId) + 1
      ensures (s, refreshTokenRepository.prisma.records) ==
        Issue(TokenIssuer(), user, old(refreshTokenRepository.prisma.records), old(refreshTokenRepository.prisma.nextId), entropy, now)
    {
      var payload := Payload(user);
      var accessToken := sign(payload);
      var refreshToken, refreshTokenExpiresAt := refreshTokenRepository.Generate(user.id, entropy, now);
      s := AuthSession(accessToken, refreshToken, refreshTokenExpiresAt, TOKEN_TYPE, tokenExpiresInSeconds, user);
    }

    method Login(user: AuthenticatedUser, entropy: seq<byte>, now: int) returns (s: AuthSession)
      requires Valid() && |entropy| == ByteCount(refreshTokenRepository.policy.length)
      modifies refreshTokenRepository.prisma
      ensures Valid()
      ensures refreshTokenRepository.prisma.nextId == old(refreshTokenRepository.prisma.nextId) + 1
      ensures (s, refreshTokenRepository.prisma.records) ==
        Issue(TokenIssuer(), user, old(refreshTokenRepository.prisma.records), old(refreshTokenRepository.prisma.nextId), entropy, now)
    {
      s := BuildAuthSession(user, entropy, now);
    }

    /** `findValid`, check the owner, `revoke`, then `generate`;
        `Session.Refresh` says what comes out. */
    method RefreshTokens(refreshToken: string, entropy: seq<byte>, now: int) returns (r: Result<AuthSession, AuthError>)
      requires Valid() && |entropy| == ByteCount(refreshTokenRepository.policy.length)
      modifies refreshTokenRepository.prisma
      ensures Valid()
      ensures refreshTokenRepository.prisma.nextId == old(refreshTokenRepository.prisma.nextId) + (if r.Success? then 1 else 0)
      ensures (r, refreshTokenRepository.prisma.records) ==
        Refresh(TokenIssuer(), userRepository.prisma.users, old(refreshTokenRepository.prisma.records),
                old(refreshTokenRepository.prisma.nextId), refreshToken, entropy, now)
    {
      var storedToken := refreshTokenRepository.FindValid(refreshToken, now);
      if storedToken.None? {
        return Failure(Unauthorized(INVALID_REFRESH_TOKEN));
      }
      var user := userRepository.FindById(storedToken.value.userId);
      if user.None? || !user.value.isActive {
        refreshTokenRepository.Revoke(refreshToken, now);
        return Failure(Unauthorized(USER_NOT_VERIFIED));
      }
      refreshTokenRepository.Revoke(refreshToken, now);
      ViewsAgree(UserAt(userRepository.prisma.users, storedToken.value.userId).value);
      var authUser := MapToAuthenticatedUser(user.value);
      var session := BuildAuthSession(authUser, entropy, now);
      return Success(session);
    }

    method Logout(refreshToken: string, now: int)
      requires Valid()
      modifies refreshTokenRepository.prisma
      ensures Valid() && refreshTokenRepository.prisma.nextId == old(refreshTokenRepository.prisma.nextId)
      ensures refreshTokenRepository.prisma.records ==
        Session.Logout(refreshTokenRepository.policy, old(refreshTokenRepository.prisma.records), refreshToken, now)
    {
      refreshTokenRepository.Revoke(refreshToken, now);
    }

    /** NotFound for an unknown id; the view of the user, active or not. */
    method GetProfile(userId: nat) returns (r: Result<AuthenticatedUser, AuthError>)
      requires Valid()
      ensures r == Profile(userRepository.prisma.users, userId)
    {
      var user := userRepository.FindById(userId);
      if user.None? {
        return Failure(NotFound(USER_NOT_FOUND));
      }
      ViewsAgree(UserAt(userRepository.prisma.users, userId).value);
      return Success(MapToAuthenticatedUser(user.value));
    }

    /** Resolve the account of an OAuth profile: by link, else by email (and
        link), else by creating it. */
    method HandleOAuthUser(provider: string, profile: OAuthProfile, passwordHash: string)
      returns (r: Result<AuthenticatedUser, AuthError>)
      requires Valid()
      modifies userRepository.prisma
      ensures Valid()
      ensures var (resolved, after) := OAuthResolve(userRepository.prisma.roles, old(userRepository.prisma.State()),
                                                    provider, profile, passwordHash);
        && userRepository.prisma.State() == after
        && r == (match resolved case Success(u) => Success(UserView(u)) case Failure(e) => Failure(StoreFailure(e)))
    {
      var link := ProviderLink(provider, profile.id);
      ghost var t := userRepository.prisma.State();
      var user := userRepository.FindByAuthProvider(link);
      if user.Some? {
        ViewsAgree(LinkOwner(t, link).value);
        return Success(MapToAuthenticatedUser(user.value));
      }
      if Truthy(profile.email) {
        user := userRepository.FindByEmail(profile.email.value);
        if user.Some? {
          ghost var owner := EmailOwner(t.users, profile.email.value).value;
          var linked := userRepository.LinkAuthProvider(user.value.id, link);
          if linked.Failure? {
            return Failure(StoreFailure(linked.error));
          }
          ViewsAgree(owner);
          return Success(MapToAuthenticatedUser(user.value));
        }
      }
      var input := CreateOAuthUserInput(profile.email.GetOr(FallbackEmail(provider, profile.id)), provider, profile.id, None, None);
      var created := userRepository.CreateOAuthUser(input, passwordHash);
      if created.Failure? {
        return Failure(StoreFailure(created.error));
      }
      ViewsAgree(userRepository.prisma.users[|userRepository.prisma.users| - 1]);
      user := Some(created.value);
      return Success(MapToAuthenticatedUser(user.value));
    }
  }
}
