/** `RefreshTokenService`: the refresh-token store used by the older session
    service. Its lookup reports a missing, revoked or expired token by
    failing with `REFRESH_TOKEN_INVALID`. */
module RefreshTokenService {
  import opened Wrappers
  import opened RefreshTokenStore

  /** `new Error('REFRESH_TOKEN_INVALID')`. */
  datatype ResolveError = RefreshTokenInvalid

  class RefreshTokenService {
    const prisma: TokenTable
    const policy: TokenPolicy

    constructor (prisma: TokenTable, policy: TokenPolicy)
      ensures this.prisma == prisma && this.policy == policy
    {
      this.prisma := prisma;
      this.policy := policy;
    }

    function HashToken(token: string): string {
      policy.sha256(token)
    }

    function CalculateExpiry(now: int): int {
      ExpiryFrom(policy.ttlDays, now)
    }

    /** Draws a token from `entropy` (the bytes `randomBytes` returned), stores
        one new unrevoked row holding only its hash, and hands back the
        plaintext and the stored expiry. */
    method GenerateToken(userId: Id, entropy: seq<byte>, now: int) returns (token: string, expiresAt: int)
      requires prisma.Valid() && |entropy| == ByteCount(policy.length)
      modifies prisma
      ensures prisma.Valid()
      ensures token == TokenFrom(policy.length, entropy)
      ensures |token| == policy.length && forall k :: 0 <= k < |token| ==> IsLowerHex(token[k])
      ensures expiresAt == now + policy.ttlDays * SECONDS_PER_DAY
      ensures prisma.nextId == old(prisma.nextId) + 1
      ensures prisma.records ==
        old(prisma.records) + [TokenRecord(old(prisma.nextId), userId, policy.sha256(token), expiresAt, None)]
    {
      token := TokenFrom(policy.length, entropy);
      var tokenHash := HashToken(token);
      expiresAt := CalculateExpiry(now);
      var _ := prisma.Create(userId, tokenHash, expiresAt);
    }

    /** Succeeds with a row iff some row carries the token's hash, is
        unrevoked and expires strictly after `now`; fails otherwise. */
    method ResolveToken(token: string, now: int) returns (r: Result<TokenRecord, ResolveError>)
      ensures r.Failure? <==> !HasValid(prisma.records, policy.sha256(token), now)
      ensures r.Failure? ==> r.error == RefreshTokenInvalid
      ensures r.Success? ==> r.value in prisma.records && IsValidFor(r.value, policy.sha256(token), now)
      ensures r.Success? ==> prisma.FindFirst(policy.sha256(token), now) == Some(r.value)
    {
      var tokenHash := HashToken(token);
      var storedToken := prisma.FindFirst(tokenHash, now);
      if storedToken.None? {
        return Failure(RefreshTokenInvalid);
      }
      return Success(storedToken.value);
    }

    /** Stamps `revokedAt = now` on every unrevoked row with the token's hash. */
    method RevokeToken(token: string, now: int)
      requires prisma.Valid()
      modifies prisma
      ensures prisma.Valid() && prisma.nextId == old(prisma.nextId)
      ensures prisma.records == RevokeAll(old(prisma.records), ByHash(policy.sha256(token)), now)
    {
      var tokenHash := HashToken(token);
      prisma.UpdateMany(ByHash(tokenHash), now);
    }

    /** Stamps `revokedAt = now` on every unrevoked row of the user. */
    method RevokeUserTokens(userId: Id, now: int)
      requires prisma.Valid()
      modifies prisma
      ensures prisma.Valid() && prisma.nextId == old(prisma.nextId)
      ensures prisma.records == RevokeAll(old(prisma.records), ByUser(userId), now)
    {
      prisma.UpdateMany(ByUser(userId), now);
    }
  }
}
