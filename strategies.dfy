/** The passport strategies that sit in front of the services: the local
    (email and password) strategy over the newer `AuthService`, and the JWT
    strategy, which looks the token's subject up through the older one. */
module Strategies {
  import opened Wrappers
  import opened UserTable
  import opened Session
  import ApplicationAuthService
  import AuthService

  const BAD_CREDENTIALS: string := "E-posta veya \U{015F}ifre hatal\U{0131}"
  const NOT_AUTHORIZED: string := "Kullan\U{0131}c\U{0131} yetkili de\U{011F}il"

  /** The local strategy's answer to a credential check. */
  function LocalOutcome(compare: (string, string) -> bool, users: seq<User>, email: string, password: string)
    : Result<AuthenticatedUser, AuthError>
  {
    match Validate(compare, users, email, password)
    case None => Failure(Unauthorized(BAD_CREDENTIALS))
    case Some(user) => Success(user)
  }

  /** With unique emails, the local login succeeds exactly for an active
      user with that email whose hash matches, and it yields that user's
      view; every refusal carries the same message, so the caller cannot
      tell an unknown email from a wrong password or an inactive account. */
  lemma LocalOutcomeSpec(compare: (string, string) -> bool, users: seq<User>, email: string, password: string)
    requires forall i, j :: 0 <= i < j < |users| ==> users[i].email != users[j].email
    ensures var r := LocalOutcome(compare, users, email, password);
      && (r.Success? <==>
            exists k :: 0 <= k < |users| && users[k].email == email && users[k].isActive && compare(password, users[k].password))
      && (r.Success? ==> exists k :: 0 <= k < |users| && users[k].email == email && r.value == UserView(users[k]))
      && (r.Failure? ==> r.error == Unauthorized(BAD_CREDENTIALS))
  {
    ValidateSpec(compare, users, email, password);
  }

  /** The JWT strategy's answer for a token subject: the profile lookup's
      refusal passed on, or the user when active. */
  function JwtOutcome(users: seq<User>, sub: nat): Result<AuthenticatedUser, AuthError> {
    match Profile(users, sub)
    case Failure(e) => Failure(e)
    case Success(user) => if !user.isActive then Failure(Unauthorized(NOT_AUTHORIZED)) else Success(user)
  }

  /** An unknown subject surfaces as NotFound from `getProfile`, not as the
      strategy's Unauthorized; an inactive one is Unauthorized; an active
      one passes with its view. */
  lemma JwtOutcomeSpec(users: seq<User>, sub: nat)
    ensures var r := JwtOutcome(users, sub);
      && (r.Success? <==> sub < |users| && users[sub].isActive)
      && (sub >= |users| ==> r == Failure(NotFound(USER_NOT_FOUND)))
      && (sub < |users| && !users[sub].isActive ==> r == Failure(Unauthorized(NOT_AUTHORIZED)))
      && (r.Success? ==> r.value == UserView(users[sub]))
  {
  }

  class LocalStrategy {
    const authService: ApplicationAuthService.AuthService

    constructor (authService: ApplicationAuthService.AuthService)
      ensures this.authService == authService
    {
      this.authService := authService;
    }

    /** `validate(email, password)`: the user, or Unauthorized. */
    method Validate(email: string, password: string) returns (r: Result<AuthenticatedUser, AuthError>)
      ensures r == LocalOutcome(authService.compare, authService.userRepository.prisma.users, email, password)
    {
      var user := authService.ValidateUser(email, password);
      if user.None? {
        return Failure(Unauthorized(BAD_CREDENTIALS));
      }
      return Success(user.value);
    }
  }

  class JwtStrategy {
    const authService: AuthService.AuthService

    constructor (authService: AuthService.AuthService)
      ensures this.authService == authService
    {
      this.authService := authService;
    }

    /** `validate(payload)` for a token whose signature, issuer, audience and
        expiry passport-jwt has already checked. */
    method Validate(payload: JwtPayload) returns (r: Result<AuthenticatedUser, AuthError>)
      requires authService.Valid()
      ensures r == JwtOutcome(authService.usersService.prisma.users, payload.sub)
    {
      var user := authService.GetProfile(payload.sub);
      match user {
        case Failure(e) => return Failure(e);
        case Success(u) =>
          if !u.isActive {
            return Failure(Unauthorized(NOT_AUTHORIZED));
          }
          return Success(u);
      }
    }
  }
}
