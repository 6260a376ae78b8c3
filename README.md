# randevu-backend authentication core, in Dafny

This project models the authentication session machinery of the randevu
backend (NestJS) and a few small rules of its Next.js frontend, and proves
properties of that model.

- **Refresh-token store.** A table of records `{id, userId, tokenHash,
  expiresAt, revokedAt}`. Records are created, looked up when valid (not
  revoked, not expired) and revoked by hash or by user. The backend has two
  near-identical front ends to this table: `RefreshTokenService` (its lookup
  throws) and `PrismaRefreshTokenRepository` (its lookup returns `null`).
- **Session orchestration.** There are two versions of `AuthService`: the
  older one over `UsersService` and `RefreshTokenService`, and the newer one
  over the user and refresh-token repositories. Both are proved against one
  shared specification (module `Session`). It covers the JWT lifetime parser,
  the credential check, session issue, refresh-token rotation, logout,
  profile lookup and the three-way OAuth account resolution.
- **User store.** Users with role memberships and provider links. Links are
  unique on `(provider, providerUserId)`. The store flattens role permissions
  into one duplicate-free list, gives OAuth users their defaults, and upserts
  a provider link.
- **HTTP rules of `AuthController`.** The `refresh_token` cookie's
  attributes (RFC 6265, section 4.1.2; `SameSite` as in the RFC 6265bis
  draft) and the branching of login, refresh and logout. The response is a
  cookie jar.
- **Passport strategies.** The local and JWT checks, and the `EdevletStrategy`
  configuration check. Also its scope parser and the `??` chains that build an
  OpenID Connect profile (claims of section 5.1 of OpenID Connect Core 1.0;
  the default `openid` scope of section 3.1.2.1).
- **Authorisation.** `CaslAbilityFactory.createForUser`, which turns
  permission names into rules, and `PoliciesGuard.canActivate`.
- **Small rules.**
  - The frontend's post-login route choice.
  - The login and registration form schemas (zod).
  - The CORS origin list that `bootstrap` reads from `CORS_ORIGINS`.

Abstractions:

- SHA-256, bcrypt `compare`, JWT signing, `toISOString` and zod's email check
  are function-valued parameters with no properties assumed.
- `randomBytes` is an `entropy` byte-sequence argument of the right length.
- The clock is an integer `now` in seconds.
- The bcrypt hash of the random password of a new OAuth user is an argument.
- The userinfo HTTP request of `EdevletStrategy` is its outcome, passed in as
  a `Fetch` value.
- Database ids are natural numbers, allocated in sequence; a user's id is its
  position in the user table.

Where the two `AuthService` versions differ, each is modelled as written.

- The JWT strategy (src/features/auth/strategies/jwt.strategy.ts) and
  `AuthController` are wired to the older `AuthService`. The local and
  E-Devlet strategies are wired to the newer one. The model follows this
  wiring.
- The older `AuthService` calls `usersService.findByAuthProvider`,
  `linkAuthProvider` and `createOAuthUser`. `UsersService`
  (src/features/user/services/user.service.ts) does not define them. The
  model gives them the semantics of the same-named `PrismaUserRepository`
  methods.

A quirk, modelled as written: `handleOAuthUser` tests `profile.email` for
truthiness before the email lookup, but uses `??` when it picks the new
user's address. An empty email therefore skips the lookup yet becomes the
new user's email.

## Model

| member | source | states |
|---|---|---|
| RefreshTokenStore.TokenFrom | src/features/auth/services/refresh-token.service.ts:25-27 | the token is exactly `length` lowercase hex characters, cut from the hex of ⌈length/2⌉ random bytes |
| RefreshTokenStore.Hex | src/features/auth/services/refresh-token.service.ts:25-26 | hex encoding doubles the length and yields only lowercase hex digits |
| RefreshTokenStore.HexAt | src/features/auth/services/refresh-token.service.ts:25-26 | byte k is encoded at positions 2k and 2k+1 as its high and low nibble |
| RefreshTokenStore.RevokeAll | src/features/auth/services/refresh-token.service.ts:66-74 | `updateMany` stamps `revokedAt = now` on exactly the unrevoked records the filter (hash or user) selects; every other record is unchanged |
| RefreshTokenStore.FirstValidFrom | src/features/auth/services/refresh-token.service.ts:45-54 | `findFirst` returns the first record with that hash, no `revokedAt` and `expiresAt > now` (strict); none when there is none |
| RefreshTokenStore.RevokeInvalidates | src/features/auth/services/refresh-token.service.ts:42-75 | after revoking a token's hash, no record is valid for that hash at any later time |
| RefreshTokenStore.RevokeIdempotent | src/features/auth/services/refresh-token.service.ts:63-75 | revoking twice, at any two times, leaves what revoking once left: the first timestamp stays |
| RefreshTokenStore.RevokeUnknownIsNoop | src/features/auth/services/refresh-token.service.ts:63-75 | revoking a hash no unrevoked record has changes nothing |
| RefreshTokenStore.RevokeByUserInvalidates | src/features/auth/infrastructure/persistence/prisma-refresh-token.repository.ts:74-84 | after revoking a user's records, no token of that user is found valid; other users' records are unchanged |
| RefreshTokenStore.CreatedRowIsAddressable | src/features/auth/infrastructure/persistence/prisma-refresh-token.repository.ts:18-72 | the record created for a token is found by the same token's hash and revoked by it, since the hash is deterministic |
| RefreshTokenStore.TokenTable.Create | src/features/auth/services/refresh-token.service.ts:31-37 | `create` appends exactly one record with a fresh id and no `revokedAt`; all earlier records stay |
| RefreshTokenStore.TokenTable.FindFirst | src/features/auth/services/refresh-token.service.ts:45-54 | the lookup finds nothing exactly when no record is valid for the hash, otherwise a valid record of the table |
| RefreshTokenStore.TokenTable.UpdateMany | src/features/auth/services/refresh-token.service.ts:66-74 | the table becomes `RevokeAll` of the old table |
| RefreshTokenService.RefreshTokenService.GenerateToken | src/features/auth/services/refresh-token.service.ts:22-40 | returns a `length`-character lowercase hex token expiring `ttlDays` days from now, and stores exactly one new record holding only the token's hash |
| RefreshTokenService.RefreshTokenService.ResolveToken | src/features/auth/services/refresh-token.service.ts:42-61 | fails with `REFRESH_TOKEN_INVALID` exactly when no record is valid for the token's hash; otherwise returns the first valid record |
| RefreshTokenService.RefreshTokenService.RevokeToken | src/features/auth/services/refresh-token.service.ts:63-75 | the table becomes the old one with the token's unrevoked records stamped |
| RefreshTokenService.RefreshTokenService.RevokeUserTokens | src/features/auth/services/refresh-token.service.ts:77-87 | the table becomes the old one with the user's unrevoked records stamped |
| PrismaRefreshTokenRepository.PrismaRefreshTokenRepository.Generate | src/features/auth/infrastructure/persistence/prisma-refresh-token.repository.ts:18-34 | returns a `length`-character hex token and the expiry stored in the one record it adds |
| PrismaRefreshTokenRepository.PrismaRefreshTokenRepository.FindValid | src/features/auth/infrastructure/persistence/prisma-refresh-token.repository.ts:36-58 | `null` exactly when no record is valid for the hash; otherwise `{id, userId, expiresAt}` of the first valid record |
| PrismaRefreshTokenRepository.PrismaRefreshTokenRepository.Revoke | src/features/auth/infrastructure/persistence/prisma-refresh-token.repository.ts:60-72 | the table becomes the old one with the token's unrevoked records stamped |
| PrismaRefreshTokenRepository.PrismaRefreshTokenRepository.RevokeByUser | src/features/auth/infrastructure/persistence/prisma-refresh-token.repository.ts:74-84 | the table becomes the old one with the user's unrevoked records stamped |
| Permissions.DistinctSpec | src/features/user/services/user.service.ts:78-88 | a `Set` read back with `Array.from` has no duplicates, holds exactly the added names, and lists them in order of first addition |
| Permissions.AddAll | src/features/user/services/user.service.ts:82-84 | adding a role's names one by one to a `Set` that holds the distinct names seen so far gives the distinct names of both, in order of first appearance |
| UserTable.PermissionNamesSpec | src/features/user/services/user.service.ts:81-85 | a name occurs among the memberships' permission names iff some membership's role grants it |
| UserTable.GrantedPermissionsSpec | src/features/user/services/user.service.ts:78-88 | the collected permissions are duplicate-free, hold exactly the names some role grants, in order of first appearance |
| UserTable.EmailOwner | src/features/user/infrastructure/persistence/prisma-user.repository.ts:44-51 | the lookup by email finds a user with that exact email, and finds none exactly when no user has it |
| UserTable.LinkOwnerSpec | src/features/user/infrastructure/persistence/prisma-user.repository.ts:62-78 | on valid tables a link's owner is found exactly when a link row has that provider and provider user id, and it is that row's user |
| UserTable.ConnectRoles | src/features/user/infrastructure/persistence/prisma-user.repository.ts:118-124 | memberships connect to the roles of the given names, in order; an unknown name is refused |
| UserTable.CreatedSpec | src/features/user/infrastructure/persistence/prisma-user.repository.ts:113-133 | the nested create is refused exactly for an unknown role, a taken email or a taken link, and then changes nothing; otherwise it appends one user and one link |
| UserTable.UpsertedSpec | src/features/user/infrastructure/persistence/prisma-user.repository.ts:84-103 | the upsert is refused only for a missing user; otherwise the single link with that key belongs to the user afterwards, reassigned when it existed, added once when not |
| UserTable.UserTable.FindUniqueByEmail | src/features/user/infrastructure/persistence/prisma-user.repository.ts:45-48 | `findUnique` by email: none exactly when no user has the email |
| UserTable.UserTable.FindUniqueById | src/features/user/infrastructure/persistence/prisma-user.repository.ts:54-57 | `findUnique` by id: none exactly when no user has the id |
| UserTable.UserTable.FindFirstByAuthProvider | src/features/user/infrastructure/persistence/prisma-user.repository.ts:65-75 | `findFirst` over links: none exactly when no link has the key, otherwise the link's owner |
| UserTable.UserTable.Create | src/features/user/infrastructure/persistence/prisma-user.repository.ts:113-133 | the tables become what `Created` gives, and stay valid |
| UserTable.UserTable.Upsert | src/features/user/infrastructure/persistence/prisma-user.repository.ts:84-103 | the tables become what `Upserted` gives, and stay valid |
| PrismaUserRepository.ModelPermissionsOfRows | src/features/user/infrastructure/persistence/prisma-user.repository.ts:155-166 | the role models' permission lists, put together, are the rows' permission names in order |
| PrismaUserRepository.AggregateRoles | src/features/user/infrastructure/persistence/prisma-user.repository.ts:154-175 | the aggregate keeps id, email, password hash and activity, and each role's id, name and own permission list, in role order |
| PrismaUserRepository.AggregatePermissions | src/features/user/infrastructure/persistence/prisma-user.repository.ts:161-174 | the aggregate's permissions are duplicate-free, the union of all roles' permissions, in order of first appearance |
| PrismaUserRepository.ToAggregate | src/features/user/infrastructure/persistence/prisma-user.repository.ts:154-176 | the nested loops over roles and permissions build exactly the aggregate specified by `Aggregate` |
| PrismaUserRepository.OAuthUserRoles | src/features/user/infrastructure/persistence/prisma-user.repository.ts:107-108 | absent or empty roles become `['USER']`; any other list is kept |
| PrismaUserRepository.OAuthUserDefaults | src/features/user/infrastructure/persistence/prisma-user.repository.ts:106-133 | a created OAuth user is active unless told otherwise, has the default or given roles, and exactly one link `(provider, providerUserId)` |
| PrismaUserRepository.PrismaUserRepository.FindByEmail | src/features/user/infrastructure/persistence/prisma-user.repository.ts:44-51 | `null` exactly when no user has the email; otherwise the aggregate of the user with it |
| PrismaUserRepository.PrismaUserRepository.FindById | src/features/user/infrastructure/persistence/prisma-user.repository.ts:53-60 | `null` exactly when no user has the id; otherwise that user's aggregate |
| PrismaUserRepository.PrismaUserRepository.FindByAuthProvider | src/features/user/infrastructure/persistence/prisma-user.repository.ts:62-78 | `null` exactly when no link has both given fields; otherwise the aggregate of the link's owner |
| PrismaUserRepository.PrismaUserRepository.LinkAuthProvider | src/features/user/infrastructure/persistence/prisma-user.repository.ts:80-104 | the tables become what the keyed upsert gives |
| PrismaUserRepository.PrismaUserRepository.CreateOAuthUser | src/features/user/infrastructure/persistence/prisma-user.repository.ts:106-136 | the tables become what the nested create with the OAuth defaults gives, and the result is the new user's aggregate |
| PrismaUserRepository.PrismaUserRepository.FindAllSummaries | src/features/user/infrastructure/persistence/prisma-user.repository.ts:138-152 | one `{id, email, isActive}` per user, in table order |
| UsersService.MapRoles | src/features/user/services/user.service.ts:74-76 | one `{id, name}` per membership, in membership order |
| UsersService.UsersService.CollectPermissions | src/features/user/services/user.service.ts:78-88 | the nested loops give the duplicate-free, first-occurrence collection of the roles' permissions; no roles give none |
| UsersService.UsersService.FindByEmail | src/features/user/services/user.service.ts:32-51 | none exactly when no user has the email |
| UsersService.UsersService.FindById | src/features/user/services/user.service.ts:53-72 | none exactly when no user has the id |
| UsersService.UsersService.FindAllBasic | src/features/user/services/user.service.ts:90-100 | one `(id, email, isActive)` per user, in table order |
| Session.ParseExpiresInDefault | src/features/auth/auth.service.ts:67-93 | an unset `JWT_EXPIRES` means `1d`, which is 86400 seconds |
| Session.ExpiresInOfNumber | src/features/auth/auth.service.ts:69-71 | an all-digit string, leading zeros included, gives its number: every such string is zeros followed by the rendering of its value, and zeros followed by `n` give `n` |
| Session.ExpiresInOfUnit | src/features/auth/auth.service.ts:73-89 | digits, leading zeros included, followed by `s`, `m`, `h` or `d` in either case give the number times 1, 60, 3600 or 86400 |
| Session.ExpiresInFallback | src/features/auth/auth.service.ts:69-76 | the empty string, and any string holding a character that is neither a digit nor a unit letter closing at least one digit, gives 3600 |
| Session.ExpiresInWithSpace | src/features/auth/auth.service.ts:69-76 | a string containing a space gives 3600 |
| Session.ExpiresInRejects | src/features/auth/auth.service.ts:73-76 | examples: `10ms`, `1w` and the empty string give 3600 |
| Session.MapToAuthenticatedUser | src/features/auth/application/services/auth.service.ts:59-70 | keeps id, email and activity, reduces roles to `{id, name}` in order, and copies the permissions |
| Session.ViewsAgree | src/features/auth/auth.service.ts:52-65 | the older service's view of a user row equals the newer service's view of the row's aggregate |
| Session.Payload | src/features/auth/auth.service.ts:98-103 | the access-token payload carries `sub = id`, the email, the role names in order and the permissions |
| Session.ValidateSpec | src/features/auth/auth.service.ts:119-134 | with unique emails, a user is returned exactly for an active user with that email whose hash matches, and it is that user's view |
| Session.IssueSpec | src/features/auth/auth.service.ts:95-117 | a session has the signed payload, `Bearer`, the parsed lifetime and a fresh token whose one new record stores only its hash and is valid until expiry |
| Session.RefreshRejectsInvalid | src/features/auth/auth.service.ts:140-147 | an invalid, expired or revoked token is refused as such, and nothing is revoked or created |
| Session.RefreshLocksOut | src/features/auth/auth.service.ts:149-153 | a valid token whose owner is missing or inactive is revoked, for good, the call is refused and no record is added |
| Session.RefreshRotates | src/features/auth/auth.service.ts:140-159 | a successful refresh is for an active owner, revokes the presented token and then adds exactly one record for the owner; the session is `Bearer` with the parsed lifetime |
| Session.RefreshIsSingleUse | src/features/auth/auth.service.ts:140-159 | unless the new token hashes like the old one, after a successful refresh the old token is never valid again and a second refresh with it is refused |
| Session.LogoutSpec | src/features/auth/auth.service.ts:161-163 | logout is idempotent, a no-op for unknown or revoked tokens, and a later refresh with the token is refused |
| Session.Profile | src/features/auth/application/services/auth.service.ts:142-149 | a missing id is NotFound, never Unauthorized; any existing user, active or not, is returned as its view |
| Session.OAuthKnownLink | src/features/auth/auth.service.ts:178-182 | an existing provider link decides: its owner is returned and nothing changes |
| Session.OAuthLinksByEmail | src/features/auth/auth.service.ts:184-193 | without a link, a user with the profile's non-empty email is returned and linked; no user is created |
| Session.OAuthCreates | src/features/auth/auth.service.ts:195-204 | otherwise one active `USER` is created with `profile.email ??` `${id}@${provider}.local` and one link, unless the database refuses, which changes nothing |
| Session.OAuthIdempotent | src/features/auth/application/services/auth.service.ts:151-181 | resolution keeps the tables valid and leaves the resolved user owning the link, so repeating it with the same provider and id changes nothing |
| AuthService.AuthService.constructor | src/features/auth/auth.service.ts:44-50 | the lifetime is parsed once, from `JWT_EXPIRES`, when the service is built |
| AuthService.AuthService.ToAuthenticatedUser | src/features/auth/auth.service.ts:52-65 | the view built from `mapRoles` and `collectPermissions` |
| AuthService.AuthService.ValidateUser | src/features/auth/auth.service.ts:119-134 | equals `Session.Validate` on the user table |
| AuthService.AuthService.BuildAuthSession | src/features/auth/auth.service.ts:95-117 | the session and the new token table are `Session.Issue`'s |
| AuthService.AuthService.Login | src/features/auth/auth.service.ts:136-138 | login issues a session for the given user |
| AuthService.AuthService.RefreshTokens | src/features/auth/auth.service.ts:140-159 | the outcome and the new token table are `Session.Refresh`'s; one record is added exactly on success |
| AuthService.AuthService.Logout | src/features/auth/auth.service.ts:161-163 | the token table becomes `Session.Logout`'s |
| AuthService.AuthService.GetProfile | src/features/auth/auth.service.ts:165-172 | equals `Session.Profile` |
| AuthService.AuthService.HandleOAuthUser | src/features/auth/auth.service.ts:174-207 | the outcome and new user tables are `Session.OAuthResolve`'s |
| ApplicationAuthService.AuthService.constructor | src/features/auth/application/services/auth.service.ts:23-29 | the lifetime is parsed once, from `JWT_EXPIRES`, when the service is built |
| ApplicationAuthService.AuthService.ValidateUser | src/features/auth/application/services/auth.service.ts:96-111 | equals `Session.Validate`, the same function as the older service |
| ApplicationAuthService.AuthService.BuildAuthSession | src/features/auth/application/services/auth.service.ts:72-94 | the session and the new token table are `Session.Issue`'s |
| ApplicationAuthService.AuthService.Login | src/features/auth/application/services/auth.service.ts:113-115 | login issues a session for the given user |
| ApplicationAuthService.AuthService.RefreshTokens | src/features/auth/application/services/auth.service.ts:117-136 | the outcome and the new token table are `Session.Refresh`'s, as for the older service |
| ApplicationAuthService.AuthService.Logout | src/features/auth/application/services/auth.service.ts:138-140 | the token table becomes `Session.Logout`'s |
| ApplicationAuthService.AuthService.GetProfile | src/features/auth/application/services/auth.service.ts:142-149 | equals `Session.Profile` |
| ApplicationAuthService.AuthService.HandleOAuthUser | src/features/auth/application/services/auth.service.ts:151-181 | the outcome and new user tables are `Session.OAuthResolve`'s |
| Strategies.LocalOutcomeSpec | src/features/auth/strategies/local.strategy.ts:13-20 | login succeeds exactly for an active user with the email whose hash matches; every refusal has the same message |
| Strategies.LocalStrategy.Validate | src/features/auth/strategies/local.strategy.ts:13-20 | the strategy's answer is `LocalOutcome` over the user repository |
| Strategies.JwtOutcomeSpec | src/features/auth/strategies/jwt.strategy.ts:26-33 | an active subject passes with its view, an inactive one is Unauthorized, and an unknown one surfaces as NotFound |
| Strategies.JwtStrategy.Validate | src/features/auth/strategies/jwt.strategy.ts:26-33 | the strategy's answer is `JwtOutcome` over the user table |
| AuthController.AuthController.SetRefreshTokenCookie | src/features/auth/auth.controller.ts:51-63 | writes only the `refresh_token` cookie, as `RefreshCookie` |
| AuthController.AuthController.ClearRefreshTokenCookie | src/features/auth/auth.controller.ts:65-72 | writes only the cleared `refresh_token` cookie |
| AuthController.RefreshCookieSpec | src/features/auth/auth.controller.ts:47-63 | the cookie holds the token, is HttpOnly with Path `/auth`, expires with the token, is Secure iff production, and is SameSite None in production and Lax otherwise |
| AuthController.ClearReplacesRefreshCookie | src/features/auth/auth.controller.ts:65-72 | the cleared cookie has the set cookie's attributes except expiry, so it replaces it; it holds no token and has already expired |
| AuthController.LoginResponseHidesToken | src/features/auth/auth.controller.ts:84-95 | the body holds the access token, type, lifetime, user and rendered expiry, and does not depend on the refresh token |
| AuthController.AuthController.Login | src/features/auth/auth.controller.ts:101-112 | issues a session, sets its token as the cookie and returns the body without it |
| AuthController.AuthController.Refresh | src/features/auth/auth.controller.ts:117-132 | a missing or empty cookie is Unauthorized with nothing changed and no service call; otherwise the service's refresh, whose new token, on success, replaces the cookie |
| AuthController.AuthController.Logout | src/features/auth/auth.controller.ts:138-148 | the cookie is always cleared; the token is revoked only when one was presented |
| AuthController.LoginRefreshLogout | test/auth.e2e-spec.ts:86-105 | a token issued at login refreshes to the same user's session, and after logout of the rotated token a refresh with it is refused |
| EdevletStrategy.Configure | src/features/auth/strategies/edevlet.strategy.ts:26-52 | fails with the configuration message exactly when one of the five settings is missing or empty; otherwise the options hold them, the parsed scope and `state` |
| EdevletStrategy.NewEdevletStrategy | src/features/auth/strategies/edevlet.strategy.ts:25-55 | the constructor throws exactly when `Configure` fails, and otherwise keeps the options and `EDEVLET_USERINFO_URL` |
| EdevletStrategy.ParseScopeSpec | src/features/auth/strategies/edevlet.strategy.ts:57-64 | an unset or empty scope gives `['openid']`; otherwise the entries are non-empty, hold no space or comma, and put together are the scope without its separators |
| EdevletStrategy.ScopeWordsAppend | src/features/auth/strategies/edevlet.strategy.ts:63 | entries keep their order: a separator splits the words of its two sides apart |
| EdevletStrategy.ParseScopeRoundTrip | src/features/auth/strategies/edevlet.strategy.ts:63 | words joined by one separator are parsed back as those words |
| EdevletStrategy.ScopeOfSeparators | src/features/auth/strategies/edevlet.strategy.ts:57-64 | a set scope of only separators gives no scope, not the default |
| EdevletStrategy.PassportProfileSpec | src/features/auth/strategies/edevlet.strategy.ts:127-147 | without a userinfo URL the id is the string `profile.id`, else the string `profile.sub`; an empty or missing choice is Unauthorized, so an empty `id` is picked and refused |
| EdevletStrategy.UserInfoProfileSpec | src/features/auth/strategies/edevlet.strategy.ts:80-125 | with a userinfo URL the id is the first present of `data.sub`, `data.id`, `profile.id`, `profile.sub`; a failed request or an empty or missing id gives Unauthorized |
| EdevletStrategy.UserInfoFieldPreference | src/features/auth/strategies/edevlet.strategy.ts:98-121 | email and names prefer userinfo data over the profile, `given_name` over `firstName` and `family_name` over `lastName` |
| EdevletStrategy.EdevletStrategy.Validate | src/features/auth/strategies/edevlet.strategy.ts:66-74 | a profile that cannot be built is refused with nothing changed; otherwise the account is resolved with provider `EDEVLET` |
| CaslAbility.GrantedSpec | src/features/auth/ability/casl-ability.factory.ts:26-45 | a rule is granted iff the permission list holds the name the table pairs it with |
| CaslAbility.RulesForSpec | src/features/auth/ability/casl-ability.factory.ts:26-45 | the same, for the six checks of `createForUser` |
| CaslAbility.SixGrants | src/features/auth/ability/casl-ability.factory.ts:28-45 | each of the six names grants its one rule and nothing else grants it; no rule is for `all` |
| CaslAbility.RulesForByNames | src/features/auth/ability/casl-ability.factory.ts:26-45 | the rules depend only on which of the six names are present |
| CaslAbility.UnknownAndDuplicateNames | src/features/auth/ability/casl-ability.factory.ts:26-45 | an unknown name adds no rule, and a repeated name no extra one |
| CaslAbility.RulesForMonotone | src/features/auth/ability/casl-ability.factory.ts:28-45 | more permissions never give fewer rules and never allow less |
| CaslAbility.UsersReadCheck | src/features/user/controllers/users.controller.ts:17-18 | no permissions give no rules, so the `GET /users` check fails; it passes exactly with `USER_READ` |
| CaslAbility.AbilityBuilder.Can | src/features/auth/ability/casl-ability.factory.ts:24 | `can` appends one rule |
| CaslAbility.CaslAbilityFactory.CreateForUser | src/features/auth/ability/casl-ability.factory.ts:23-48 | the six conditional `can` calls build exactly `RulesFor(user.permissions)` |
| PoliciesGuard.EverySpec | src/features/auth/guards/policies.guard.ts:56 | `every` is the conjunction of the handlers' answers; it runs them left to right and stops right after the first refusal |
| PoliciesGuard.DecideSpec | src/features/auth/guards/policies.guard.ts:36-57 | no handlers let anyone through; handlers without a user are Unauthorized; otherwise the request passes iff every handler accepts the user's ability |
| PoliciesGuard.PoliciesGuard.CanActivate | src/features/auth/guards/policies.guard.ts:36-68 | the answer is `Decide`; the ability is stored on the request exactly when handlers and a user are present, and the user is unchanged |
| RoleRouting.ResolveCases | frontend/src/features/auth/config/role-routing.ts:15-25 | the table is read in order: ADMIN, then USER, then the fallback |
| RoleRouting.ResolveSpec | frontend/src/features/auth/config/role-routing.ts:8-25 | the dashboard exactly when some role upper-cases to `ADMIN`; otherwise `/app/home`; never anything else |
| RoleRouting.ResolveIgnoresOrder | frontend/src/features/auth/config/role-routing.ts:15-25 | the route depends only on which roles are held, not their order or repetition |
| RoleRouting.ResolveExamples | frontend/src/features/auth/config/role-routing.ts:8-25 | examples: `user, Admin` goes to the dashboard; `uSeR` and the empty list go home |
| ZodFields.StringField | frontend/src/features/auth/schemas/login-schema.ts:4-9 | a string field yields its value; a failed check adds its message and goes on; a missing value gives the required message and a wrong type zod's default |
| LoginSchema.RememberMeField | frontend/src/features/auth/schemas/login-schema.ts:10 | missing means false, a boolean is kept, any other value is an issue |
| LoginSchema.ParseLoginSpec | frontend/src/features/auth/schemas/login-schema.ts:3-11 | accepted iff the email has at least 4 characters, the password at least 6, and `rememberMe` is missing or boolean; the data keeps the strings and the flag, false when missing |
| LoginSchema.ParseLoginIssues | frontend/src/features/auth/schemas/login-schema.ts:3-11 | each missing or too-short field reports its own message on its own path |
| RegisterSchema.AcceptPoliciesField | frontend/src/features/auth/schemas/register-schema.ts:14-16 | only `true` passes; `false` reports the policies message |
| RegisterSchema.ParseRegisterSpec | frontend/src/features/auth/schemas/register-schema.ts:3-21 | accepted iff the email passes the format check, both passwords have at least 6 characters and are equal, and the policies are accepted |
| RegisterSchema.PasswordMismatch | frontend/src/features/auth/schemas/register-schema.ts:18-21 | a mismatch is reported on `confirmPassword` once all fields have the right type; a missing or mistyped field stops the comparison |
| RegisterSchema.ParseRegisterIssues | frontend/src/features/auth/schemas/register-schema.ts:3-16 | each failing field reports its own message on its own path |
| Cors.AllowedOrigins | src/main.ts:12-20 | the parse, then the push of the default onto an empty list, give `Origins` |
| Cors.OriginsAreTrimmed | src/main.ts:13-16 | every origin is non-empty, trimmed and holds no comma |
| Cors.OriginsDefault | src/main.ts:12-20 | the default is used exactly when nothing but commas and spaces was given (unset included), and is never added to a non-empty list |
| Cors.OriginPiecesAppend | src/main.ts:13-16 | origins keep their input order: a comma splits the two sides apart |
| Cors.OriginsRoundTrip | src/main.ts:13-16 | trimmed, comma-free origins joined with commas are read back as they are |
| Text.DecimalRoundTrip | src/features/auth/auth.service.ts:69-71 | the decimal digits of a number read back as that number |
| Text.LeadingZeros | src/features/auth/auth.service.ts:69-70 | leading zeros add nothing to the value `Number()` reads from a digit string |
| Text.DigitsCanonical | src/features/auth/auth.service.ts:69-70 | every non-empty digit string is a run of zeros followed by the rendering of its value |
| Text.TrimBlank | src/main.ts:15 | `trim` gives the empty string iff the input is all space and otherwise neither starts nor ends with space; it adds no character |
| Text.SplitPieces | src/main.ts:14 | no piece of `split` holds a separator, and the pieces put together are the input without separators |
| Text.SplitJoin | src/main.ts:14 | splitting separator-free pieces joined by a separator gives the pieces back |
| Text.JoinSplit | src/main.ts:14 | joining the pieces of a split with its one separator gives the input back |

## Left out

- Concurrency: two refreshes of the same token are two sequential calls (look up, then revoke). Nothing is claimed about concurrent calls, which the source does not make atomic.
- Cryptography: SHA-256, bcrypt `hash`/`compare` and `randomBytes` are parameters with no properties assumed. A property that needs the new token to hash unlike the old one says so in its precondition.
- Session.RefreshIsSingleUse: the end-to-end expectation that a rotated cookie differs from the old one is not proved. It depends on random bytes; the lemma assumes the two hashes differ instead.
- JWT signing and passport-jwt's signature, issuer, audience and expiry checks (RFC 7519) are library behaviour. The signed token is a parameter applied to the payload.
- RefreshTokenStore.TokenFrom: `DEFAULT_TOKEN_LENGTH` and `DEFAULT_TTL_DAYS` read from the environment through `Number(...)` are natural-number parameters. `NaN` and non-integer values are not modelled.
- RefreshTokenService.RefreshTokenService.GenerateToken: the expiry is `now + ttlDays × 86400` seconds, not local calendar days with daylight-saving shifts.
- Session.ExpiresInOfNumber: numbers are unbounded naturals. `Number()` overflow and loss of precision for very long digit strings are not modelled.
- Text.ToUpper: upper and lower case are performed on ASCII letters only, not full Unicode `toUpperCase`/`toLowerCase`.
- ZodFields.StringField: `min` counts Unicode scalar values, where zod counts UTF-16 code units. A type error carries zod's default message as `None`, not its text.
- RegisterSchema.ParseRegisterSpec: zod's email regular expression is an abstract predicate. Issue order is field order, then the refinement; zod's own aggregation order is not claimed.
- The form schemas receive an object of four or three values; a non-object input and unknown keys, which zod strips, are not modelled.
- CaslAbility.UsersReadCheck: `Allows` covers CASL's `manage` and `all` for rules without conditions, fields or inversion, which are all `createForUser` produces. Other CASL rule matching is not modelled.
- The Prisma query mechanics are left out. A failed query is the `StoreError` of the one constraint the model checks; several violated constraints are not ordered as the database would order them.
- The older `UsersService` has no `findByAuthProvider`, `linkAuthProvider` or `createOAuthUser`. The older `AuthService`'s calls to them take the repository's semantics.
- The role view types of the two services (`RoleSummary` and the domain model) are one datatype. They carry the same fields.
- The OAuth user's random password is not modelled: the bcrypt hash is an argument of the create.
- The userinfo request of `EdevletStrategy` is its outcome (failed, or a body that may be empty). Its headers and the access token are not modelled. Userinfo fields of a non-string type are not modelled either; fields are present strings or absent.
- The HTTP status codes (`204` on logout), Express `res.cookie` serialisation, Swagger, modules, decorators, DTOs and CQRS handlers are left out. So are `GET /auth/profile` and the E-Devlet callback endpoint, which are one-line delegations to `getProfile` and `login`.
- `registerLocalUser` is called by a command handler but is not defined in `AuthService`; it is not modelled.
- The frontend pages, forms and HTTP actions are not modelled. This includes `login.ts`, which posts an `identifier` field the login schema does not define.
- The rest of `bootstrap` is left out: Swagger, the docs routes, the port and the server start.
