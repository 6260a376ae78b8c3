/** `PrismaRefreshTokenRepository`: the refresh-token store behind the
    abstract `RefreshTokenRepository`, used by the newer session service. Its
    lookup reports a missing, revoked or expired token with `null`. */
module PrismaRefreshTokenRepository {
  import opened Wrappers
  import opened RefreshTokenStore

  /** `RefreshTokenRecord`: what a lookup exposes of a row. */
  datatype RefreshTokenView = RefreshTokenView(id: Id, userId: Id, expiresAt: int)

  function ViewOf(record: Option<TokenRecord>): Option<RefreshTokenView> {
    match record
    case None => None
    case Some(row) => Some(RefreshTokenView(row.id, row.userId, row.expiresAt))
  }

  class PrismaRefreshTokenRepository {
    const prisma: TokenTable
    const policy: TokenPolicy

    constructor (prisma: TokenTable, policy: TokenPolicy)
      ensures this.prisma == prisma && this.policy == policy
    {
      this.prisma := prisma;
      this.policy := policy;
    }

    function Hash(token: string): string {
      policy.sha256(token)
    }

    function CalculateExpiry(now: int): int {
      ExpiryFrom(policy.ttlDays, now)
    }

    /** One new unrevoked row holding the hash of the returned token; the
        returned expiry is the stored one. */
    method Generate(userId: Id, entropy: seq<byte>, now: int) returns (token: string, expiresAt: int)
      requires prisma.Valid() && |entropy| == ByteCount(policy.length)
      modifies prisma
      ensures prisma.Valid()
      ensures token == TokenFrom(policy.length, entropy)
      ensures |token| == policy.length && forall k :: 0 <= k < |token| ==> IsLowerHex(token[k])
      ensures expiresAt == now + policy.ttlDays * SECONDS_PER_DAY
      ensures prisma.nextId == old(prisma.nextId) + 1
      ensures prisma.records ==
        old(prisma.records) + [TokenRecord(old(prisma.nextId), userId, policy.sha256(token), expiresAt, None)]
    {
      token := TokenFrom(policy.length, entropy);
      var tokenHash := Hash(token);
      expiresAt := CalculateExpiry(now);
      var _ := prisma.Create(userId, tokenHash, expiresAt);
    }

    /** `null` iff no row carries the token's hash, is unrevoked and expires
        strictly after `now`; otherwise exactly `{id, userId, expiresAt}` of
        such a row. */
    method FindValid(token: string, now: int) returns (r: Option<RefreshTokenView>)
      ensures r.None? <==> !HasValid(prisma.records, policy.sha256(token), now)
      ensures r.Some? ==> exists k :: 0 <= k < |prisma.records| && IsValidFor(prisma.records[k], policy.sha256(token), now)
                                && r.value == RefreshTokenView(prisma.records[k].id, prisma.records[k].userId, prisma.records[k].expiresAt)
      ensures r == ViewOf(prisma.FindFirst(policy.sha256(token), now))
    {
      var tokenHash := Hash(token);
      var record := prisma.FindFirst(tokenHash, now);
      if record.None? {
        return None;
      }
      var row := record.value;
      return Some(RefreshTokenView(row.id, row.userId, row.expiresAt));
    }

    /** Stamps `revokedAt = now` on every unrevoked row with the token's hash. */
    method Revoke(token: string, now: int)
      requires prisma.Valid()
      modifies prisma
      ensures prisma.Valid() && prisma.nextId == old(prisma.nextId)
      ensures prisma.records == RevokeAll(old(prisma.records), ByHash(policy.sha256(token)), now)
    {
      var tokenHash := Hash(token);
      prisma.UpdateMany(ByHash(tokenHash), now);
    }

    /** Stamps `revokedAt = now` on every unrevoked row of the user. */
    method RevokeByUser(userId: Id, now: int)
      requires prisma.Valid()
      modifies prisma
      ensures prisma.Valid() && prisma.nextId == old(prisma.nextId)
      ensures prisma.records == RevokeAll(old(prisma.records), ByUser(userId), now)
    {
      prisma.UpdateMany(ByUser(userId), now);
    }
  }
}
