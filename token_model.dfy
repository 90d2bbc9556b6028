/** Session tokens: the Token schema with its seven-day expiry, the claims a
    token carries, and the token collection. */
module TokenModel {
  import opened Wrappers
  import opened JsText

  const SecondsPerDay: nat := 24 * 60 * 60

  /** `expires: '7d'` on `createdAt`: the TTL index removes a record this many seconds after it was created. */
  const TokenTtlSeconds: nat := 7 * SecondsPerDay

  /** `expiresIn: '7d'` given to `jwt.sign`. */
  const JwtLifetimeSeconds: nat := 7 * SecondsPerDay

  /** The payload signed into a token, `{ id, email }`. */
  datatype Claims = Claims(id: ObjectId, email: string)

  /** The fields handed to `Token.create`; any of them may be missing. */
  datatype TokenDraft = TokenDraft(userId: Option<ObjectId>, token: Option<string>, createdAt: Option<Millis>)

  /** A stored token record. */
  datatype TokenRecord = TokenRecord(userId: ObjectId, token: string, createdAt: Millis)

  /** `Token.create(draft)`: `userId` and `token` are required (a required
      string must be non-empty); `createdAt` defaults to now. `None` is the
      validation error. */
  function CreateRecord(d: TokenDraft, now: Millis): (r: Option<TokenRecord>)
    ensures r.Some? <==> d.userId.Some? && Truthy(d.token)
    ensures r.Some? ==> r.value.userId == d.userId.value && r.value.token == d.token.value
    ensures r.Some? && d.createdAt.None? ==> r.value.createdAt == now
    ensures r.Some? && d.createdAt.Some? ==> r.value.createdAt == d.createdAt.value
  {
    if d.userId.None? || !Truthy(d.token) then None
    else Some(TokenRecord(d.userId.value, d.token.value, if d.createdAt.Some? then d.createdAt.value else now))
  }

  /** A record is expired, and eligible for removal, once seven days have passed since `createdAt`. */
  predicate Expired(r: TokenRecord, now: Millis)
    ensures Expired(r, now) <==> now - r.createdAt >= 604_800_000
  {
    now >= r.createdAt + TokenTtlSeconds * 1000
  }

  /** Whether some record holds token t: `Token.findOne({ token })` finds one. */
  predicate HasToken(records: seq<TokenRecord>, t: string) {
    exists k :: 0 <= k < |records| && records[k].token == t
  }

  /** The records the TTL monitor keeps at time now. */
  function Unexpired(records: seq<TokenRecord>, now: Millis): (r: seq<TokenRecord>)
    ensures |r| <= |records|
    ensures forall x :: x in r ==> x in records && !Expired(x, now)
  {
    if records == [] then []
    else (if Expired(records[0], now) then [] else [records[0]]) + Unexpired(records[1..], now)
  }

  /** The TTL monitor keeps exactly the unexpired records, each as often as it was stored. */
  lemma {:induction false} UnexpiredExactly(records: seq<TokenRecord>, now: Millis)
    ensures forall x :: x in Unexpired(records, now) <==> x in records && !Expired(x, now)
    ensures forall x :: !Expired(x, now) ==> multiset(Unexpired(records, now))[x] == multiset(records)[x]
  {
    if records != [] {
      UnexpiredExactly(records[1..], now);
      assert records == [records[0]] + records[1..];
    }
  }

  /** `iat`: the second at which `jwt.sign` reads the clock (`Math.floor(Date.now() / 1000)`). */
  function IssuedAt(signedAt: Millis): int {
    signedAt / 1000
  }

  /** `exp`: `expiresIn: '7d'` puts the expiry seven days after `iat`, in whole seconds. */
  function ExpiresAt(signedAt: Millis): (exp: int)
    ensures exp - IssuedAt(signedAt) == JwtLifetimeSeconds
    ensures signedAt - 1000 < exp * 1000 - JwtLifetimeSeconds * 1000 <= signedAt
  {
    IssuedAt(signedAt) + JwtLifetimeSeconds
  }

  /** `jwt.verify` throws `TokenExpiredError` once the current second reaches `exp`. */
  predicate JwtExpired(exp: int, now: Millis) {
    now / 1000 >= exp
  }

  /** `login` signs the token first and creates its record afterwards, so
      `signedAt <= createdAt`. The record is never purged while its token still
      verifies, and it outlives the token by less than a second plus the time
      between signing and creating: the two expiries are not simultaneous. */
  lemma RecordOutlivesToken(r: TokenRecord, signedAt: Millis, now: Millis)
    requires signedAt <= r.createdAt
    ensures Expired(r, now) ==> JwtExpired(ExpiresAt(signedAt), now)
    ensures JwtExpired(ExpiresAt(signedAt), now) ==> Expired(r, now + (r.createdAt - signedAt) + 999)
  {
    var exp := ExpiresAt(signedAt);
    if Expired(r, now) {
      assert now >= signedAt + JwtLifetimeSeconds * 1000;
      assert now / 1000 >= (signedAt + JwtLifetimeSeconds * 1000) / 1000;
      assert (signedAt + JwtLifetimeSeconds * 1000) / 1000 == exp;
    }
    if JwtExpired(exp, now) {
      assert now >= (now / 1000) * 1000;
      assert now >= exp * 1000;
    }
  }

  /** A token signed and recorded 500 ms into a second stops verifying half a
      second before its record is purged. */
  lemma TokenExpiresBeforeRecord()
    ensures var r := TokenRecord(0, "t", 500);
      && JwtExpired(ExpiresAt(500), 500 + TokenTtlSeconds * 1000 - 500)
      && !Expired(r, 500 + TokenTtlSeconds * 1000 - 500)
  {
  }

  /** The token collection, in insertion order. */
  class TokenStore {
    var records: seq<TokenRecord>

    constructor ()
      ensures records == []
    {
      records := [];
    }

    /** One pass of Mongo's TTL monitor at time now. */
    method PurgeExpired(now: Millis)
      modifies this
      ensures records == Unexpired(old(records), now)
    {
      records := Unexpired(records, now);
    }
  }
}
