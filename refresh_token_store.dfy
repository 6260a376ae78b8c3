/** The `refreshToken` table as the ORM client presents it to the two
    refresh-token implementations: rows `{id, userId, tokenHash, expiresAt,
    revokedAt}`, a `create` that appends a row, a `findFirst` filtered on hash,
    revocation and expiry, and an `updateMany` that stamps `revokedAt` on the
    unrevoked rows selected by hash or by owner. The token format
    (`randomBytes(⌈L/2⌉)` rendered as hex and cut to L characters) and the
    expiry rule shared by both implementations live here too. */
module RefreshTokenStore {
  import opened Wrappers

  /** Database keys, allocated by the table. */
  type Id = nat

  newtype byte = x: int | 0 <= x < 256

  const SECONDS_PER_DAY: nat := 86400

  /** `REFRESH_TOKEN_LENGTH ?? 64` and `REFRESH_TOKEN_TTL_DAYS ?? 7`. */
  const DEFAULT_TOKEN_LENGTH: nat := 64
  const DEFAULT_TTL_DAYS: nat := 7

  /** What every refresh-token implementation is configured with: the
      one-way hash (SHA-256 rendered as hex), the token length in characters
      and the lifetime in days. */
  datatype TokenPolicy = TokenPolicy(sha256: string -> string, length: nat, ttlDays: nat)

  datatype TokenRecord = TokenRecord(
    id: Id,
    userId: Id,
    tokenHash: string,
    expiresAt: int,
    revokedAt: Option<int>)

  // ----- token format -----------------------------------------------------

  predicate IsLowerHex(c: char) {
    '0' <= c <= '9' || 'a' <= c <= 'f'
  }

  function HexDigit(d: nat): (c: char)
    requires d < 16
    ensures IsLowerHex(c)
  {
    "0123456789abcdef"[d]
  }

  /** `Buffer.toString('hex')`: two lower-case digits per byte, high nibble first. */
  function Hex(bytes: seq<byte>): (h: string)
    ensures |h| == 2 * |bytes|
    ensures forall k :: 0 <= k < |h| ==> IsLowerHex(h[k])
  {
    if bytes == [] then []
    else [HexDigit(bytes[0] as int / 16), HexDigit(bytes[0] as int % 16)] + Hex(bytes[1..])
  }

  /** The two digits written for byte `k` are its high and low nibble. */
  lemma {:induction false} HexAt(bytes: seq<byte>, k: nat)
    requires k < |bytes|
    ensures Hex(bytes)[2 * k] == HexDigit(bytes[k] as int / 16)
    ensures Hex(bytes)[2 * k + 1] == HexDigit(bytes[k] as int % 16)
  {
    if k > 0 {
      HexAt(bytes[1..], k - 1);
    }
  }

  /** `Math.ceil(length / 2)`: how many random bytes are drawn. */
  function ByteCount(length: nat): nat {
    (length + 1) / 2
  }

  /** The plaintext token made from the drawn bytes. */
  function TokenFrom(length: nat, entropy: seq<byte>): (token: string)
    requires |entropy| == ByteCount(length)
    ensures |token| == length
    ensures forall k :: 0 <= k < |token| ==> IsLowerHex(token[k])
  {
    Hex(entropy)[..length]
  }

  /** `new Date()` moved forward by the configured number of days. */
  function ExpiryFrom(ttlDays: nat, now: int): int {
    now + ttlDays * SECONDS_PER_DAY
  }

  // ----- row filters ------------------------------------------------------

  /** The `findFirst` filter: `{ tokenHash, revokedAt: null, expiresAt: { gt: now } }`. */
  predicate IsValidFor(r: TokenRecord, tokenHash: string, now: int) {
    r.tokenHash == tokenHash && r.revokedAt.None? && r.expiresAt > now
  }

  /** The two `updateMany` filters: by hash or by owner, each with `revokedAt: null`. */
  datatype RevokeFilter = ByHash(tokenHash: string) | ByUser(userId: Id)

  predicate Selects(f: RevokeFilter, r: TokenRecord) {
    r.revokedAt.None? &&
    match f
    case ByHash(h) => r.tokenHash == h
    case ByUser(u) => r.userId == u
  }

  function Stamp(f: RevokeFilter, r: TokenRecord, now: int): TokenRecord {
    if Selects(f, r) then r.(revokedAt := Some(now)) else r
  }

  /** The table after `updateMany({ where: f, data: { revokedAt: now } })`:
      every selected row gets `revokedAt = now`, every other row is kept. */
  function RevokeAll(rs: seq<TokenRecord>, f: RevokeFilter, now: int): (out: seq<TokenRecord>)
    ensures |out| == |rs|
    ensures forall k :: 0 <= k < |rs| && Selects(f, rs[k]) ==> out[k] == rs[k].(revokedAt := Some(now))
    ensures forall k :: 0 <= k < |rs| && !Selects(f, rs[k]) ==> out[k] == rs[k]
  {
    seq(|rs|, k requires 0 <= k < |rs| => Stamp(f, rs[k], now))
  }

  /** Index of the first row, from `from` on, that passes the `findFirst` filter. */
  function FirstValidFrom(rs: seq<TokenRecord>, tokenHash: string, now: int, from: nat): (r: Option<nat>)
    requires from <= |rs|
    ensures r.Some? ==> from <= r.value < |rs| && IsValidFor(rs[r.value], tokenHash, now)
    ensures r.Some? ==> forall j :: from <= j < r.value ==> !IsValidFor(rs[j], tokenHash, now)
    ensures r.None? ==> forall j :: from <= j < |rs| ==> !IsValidFor(rs[j], tokenHash, now)
    decreases |rs| - from
  {
    if from == |rs| then None
    else if IsValidFor(rs[from], tokenHash, now) then Some(from)
    else FirstValidFrom(rs, tokenHash, now, from + 1)
  }

  function FirstValid(rs: seq<TokenRecord>, tokenHash: string, now: int): Option<nat> {
    FirstValidFrom(rs, tokenHash, now, 0)
  }

  /** Some row is valid for the hash at `now`. */
  ghost predicate HasValid(rs: seq<TokenRecord>, tokenHash: string, now: int) {
    exists k :: 0 <= k < |rs| && IsValidFor(rs[k], tokenHash, now)
  }

  // ----- properties of the filters ---------------------------------------

  /** After revoking by hash no row is valid for that hash, at any time. */
  lemma RevokeInvalidates(rs: seq<TokenRecord>, tokenHash: string, revokedAt: int, later: int)
    ensures FirstValid(RevokeAll(rs, ByHash(tokenHash), revokedAt), tokenHash, later).None?
    ensures !HasValid(RevokeAll(rs, ByHash(tokenHash), revokedAt), tokenHash, later)
  {
    var out := RevokeAll(rs, ByHash(tokenHash), revokedAt);
    forall k | 0 <= k < |out| ensures !IsValidFor(out[k], tokenHash, later) {
      assert out[k] == Stamp(ByHash(tokenHash), rs[k], revokedAt);
    }
  }

  /** A second revocation with the same filter changes nothing. */
  lemma RevokeIdempotent(rs: seq<TokenRecord>, f: RevokeFilter, first: int, second: int)
    ensures RevokeAll(RevokeAll(rs, f, first), f, second) == RevokeAll(rs, f, first)
  {
    var once := RevokeAll(rs, f, first);
    var twice := RevokeAll(once, f, second);
    forall k | 0 <= k < |rs| ensures twice[k] == once[k] {
      assert !Selects(f, once[k]);
    }
  }

  /** Revoking a hash that no unrevoked row carries leaves the table as it was. */
  lemma RevokeUnknownIsNoop(rs: seq<TokenRecord>, tokenHash: string, now: int)
    requires forall k :: 0 <= k < |rs| ==> rs[k].tokenHash != tokenHash || rs[k].revokedAt.Some?
    ensures RevokeAll(rs, ByHash(tokenHash), now) == rs
  {
  }

  /** After revoking by owner, no row of that owner is valid for any hash,
      and the rows of every other owner are exactly as before. */
  lemma RevokeByUserInvalidates(rs: seq<TokenRecord>, userId: Id, revokedAt: int, tokenHash: string, later: int)
    ensures var out := RevokeAll(rs, ByUser(userId), revokedAt);
      forall k :: 0 <= k < |out| && IsValidFor(out[k], tokenHash, later) ==> out[k].userId != userId
    ensures var out := RevokeAll(rs, ByUser(userId), revokedAt);
      forall k :: 0 <= k < |rs| && rs[k].userId != userId ==> out[k] == rs[k]
    ensures var r := FirstValid(RevokeAll(rs, ByUser(userId), revokedAt), tokenHash, later);
      r.Some? ==> RevokeAll(rs, ByUser(userId), revokedAt)[r.value].userId != userId
  {
    var out := RevokeAll(rs, ByUser(userId), revokedAt);
    forall k | 0 <= k < |out| && IsValidFor(out[k], tokenHash, later) ensures out[k].userId != userId {
      assert out[k] == Stamp(ByUser(userId), rs[k], revokedAt);
    }
  }

  /** A row appended unrevoked and unexpired is found by its hash: it is the
      row found unless an older valid row carries the same hash, and revoking
      that hash afterwards revokes it. */
  lemma CreatedRowIsAddressable(rs: seq<TokenRecord>, row: TokenRecord, now: int, later: int)
    requires row.revokedAt.None? && row.expiresAt > now
    ensures HasValid(rs + [row], row.tokenHash, now)
    ensures !HasValid(rs, row.tokenHash, now) ==> FirstValid(rs + [row], row.tokenHash, now) == Some(|rs|)
    ensures RevokeAll(rs + [row], ByHash(row.tokenHash), later)[|rs|] == row.(revokedAt := Some(later))
  {
    var all := rs + [row];
    assert IsValidFor(all[|rs|], row.tokenHash, now);
  }

  // ----- the table --------------------------------------------------------

  /** The mutable `refreshToken` table. Ids increase along the sequence, so
      they are unique and every new row gets an id no row had. */
  class TokenTable {
    var records: seq<TokenRecord>
    var nextId: Id

    ghost predicate Valid()
      reads this
    {
      && (forall i, j :: 0 <= i < j < |records| ==> records[i].id < records[j].id)
      && (forall k :: 0 <= k < |records| ==> records[k].id < nextId)
    }

    constructor ()
      ensures Valid() && records == [] && nextId == 0
    {
      records := [];
      nextId := 0;
    }

    /** `refreshToken.create({ data: { userId, tokenHash, expiresAt } })`. */
    method Create(userId: Id, tokenHash: string, expiresAt: int) returns (id: Id)
      requires Valid()
      modifies this
      ensures Valid()
      ensures id == old(nextId) && nextId == id + 1
      ensures forall k :: 0 <= k < |old(records)| ==> old(records)[k].id != id
      ensures records == old(records) + [TokenRecord(id, userId, tokenHash, expiresAt, None)]
    {
      id := nextId;
      records := records + [TokenRecord(id, userId, tokenHash, expiresAt, None)];
      nextId := nextId + 1;
    }

    /** `refreshToken.findFirst` with the validity filter: the first row in
        table order that carries the hash, is unrevoked and expires after `now`. */
    function FindFirst(tokenHash: string, now: int): (r: Option<TokenRecord>)
      reads this
      ensures r.None? <==> !HasValid(records, tokenHash, now)
      ensures r.Some? ==> r.value in records && IsValidFor(r.value, tokenHash, now)
    {
      match FirstValid(records, tokenHash, now)
      case None => None
      case Some(k) => Some(records[k])
    }

    /** `refreshToken.updateMany({ where: f, data: { revokedAt: now } })`,
        row by row, in place. */
    method UpdateMany(f: RevokeFilter, now: int)
      requires Valid()
      modifies this
      ensures Valid() && nextId == old(nextId)
      ensures records == RevokeAll(old(records), f, now)
    {
      var i := 0;
      while i < |records|
        invariant 0 <= i <= |records| == |old(records)|
        invariant forall k :: 0 <= k < i ==> records[k] == Stamp(f, old(records)[k], now)
        invariant forall k :: i <= k < |records| ==> records[k] == old(records)[k]
        invariant nextId == old(nextId)
      {
        records := records[i := Stamp(f, records[i], now)];
        i := i + 1;
      }
    }
  }
}
