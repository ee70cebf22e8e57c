/**
 * repositories/redis_token_repository.go: refresh tokens kept in a Redis key
 * space under `rt:`-prefixed keys, each with a time-to-live. The JSON
 * encoding of the record is taken to round-trip, so the stored value is the
 * record itself. Time is whole seconds.
 */
module TokenStore {
  import opened Wrappers
  import opened Errors

  /** `models.RefreshToken` as the services fill it in. */
  datatype RefreshToken = RefreshToken(userId: nat, token: string, expiresAt: int)

  /** A Redis entry: the value and the second at which the key expires (`None`: no expiry). */
  datatype Entry = Entry(value: RefreshToken, expiry: Option<int>)

  const KeyPrefix: string := "rt:"

  /** `getTokenKey`. */
  function TokenKey(token: string): (k: string)
    ensures |k| == |token| + 3 && k[..3] == "rt:" && k[3..] == token
  {
    KeyPrefix + token
  }

  /** Distinct tokens use distinct keys. */
  lemma TokenKeyInjective(a: string, b: string)
    requires TokenKey(a) == TokenKey(b)
    ensures a == b
  {
  }

  /**
   * The expiry Redis gives a key set at `now` with time-to-live `ttl`: a
   * positive ttl expires the key at `now + ttl`; the client sends no expiry
   * for a ttl that is not positive.
   */
  function ExpiryFor(now: int, ttl: int): (e: Option<int>)
    ensures e.Some? <==> ttl > 0
    ensures e.Some? ==> e.value - now == ttl
  {
    if ttl > 0 then Some(now + ttl) else None
  }

  /** An entry without expiry, or one whose expiry has not yet come, is visible. */
  predicate Live(e: Entry, now: int) {
    e.expiry.None? || now < e.expiry.value
  }

  /** The key space after `Create(t)` at `now`: the record under its key, time-to-live `ExpiresAt - now`. */
  function Put(kv: map<string, Entry>, t: RefreshToken, now: int): (r: map<string, Entry>)
    ensures r.Keys == kv.Keys + {TokenKey(t.token)}
    ensures r[TokenKey(t.token)].value == t
    ensures forall k :: k in kv && k != TokenKey(t.token) ==> r[k] == kv[k]
  {
    kv[TokenKey(t.token) := Entry(t, ExpiryFor(now, t.expiresAt - now))]
  }

  /** The key space after `Revoke(token)`: the key is deleted (`DEL`; absent keys are fine). */
  function Delete(kv: map<string, Entry>, token: string): (r: map<string, Entry>)
    ensures r.Keys == kv.Keys - {TokenKey(token)}
    ensures forall k :: k in r ==> r[k] == kv[k]
  {
    kv - {TokenKey(token)}
  }

  /** What `GetByToken` answers at `now` when Redis is reachable: the record, or `ErrInvalidToken` for a missing key. */
  function Lookup(kv: map<string, Entry>, token: string, now: int): (r: Result<RefreshToken, Error>)
    ensures r.Success? <==> TokenKey(token) in kv && Live(kv[TokenKey(token)], now)
    ensures r.Success? ==> r.value == kv[TokenKey(token)].value
    ensures r.Failure? ==> r.error == Sentinel(InvalidToken)
  {
    var k := TokenKey(token);
    if k in kv && Live(kv[k], now) then Success(kv[k].value) else Failure(Sentinel(InvalidToken))
  }

  /** After `Create(t)`, `GetByToken(t.Token)` gives back `t` until `t.ExpiresAt`. */
  lemma PutThenLookup(kv: map<string, Entry>, t: RefreshToken, now: int, later: int)
    requires now <= later < t.expiresAt
    ensures Lookup(Put(kv, t, now), t.token, later) == Success(t)
  {
  }

  /** From `t.ExpiresAt` on, a token created with a future expiry is gone. */
  lemma PutExpires(kv: map<string, Entry>, t: RefreshToken, now: int, later: int)
    requires now < t.expiresAt <= later
    ensures Lookup(Put(kv, t, now), t.token, later) == Failure(Sentinel(InvalidToken))
  {
  }

  /** After `Revoke(s)`, `GetByToken(s)` fails with `ErrInvalidToken` at every time. */
  lemma DeleteThenLookup(kv: map<string, Entry>, s: string, later: int)
    ensures Lookup(Delete(kv, s), s, later) == Failure(Sentinel(InvalidToken))
  {
  }

  /** Revoking a token that is not there changes nothing. */
  lemma DeleteAbsent(kv: map<string, Entry>, s: string)
    requires TokenKey(s) !in kv
    ensures Delete(kv, s) == kv
  {
  }

  /** `Create` and `Revoke` touch only their own key: every other key keeps its entry. */
  lemma OnlyOwnKeyChanges(kv: map<string, Entry>, t: RefreshToken, s: string, now: int, k: string)
    requires k != TokenKey(t.token)
    requires k != TokenKey(s)
    ensures (k in Put(kv, t, now)) == (k in kv) && (k in Delete(kv, s)) == (k in kv)
    ensures k in kv ==> Put(kv, t, now)[k] == kv[k] && Delete(kv, s)[k] == kv[k]
  {
  }

  /** Lookups of other tokens see neither a `Create` nor a `Revoke`. */
  lemma OtherTokensUnaffected(kv: map<string, Entry>, t: RefreshToken, s: string, u: string, now: int, later: int)
    requires u != t.token && u != s
    ensures Lookup(Put(kv, t, now), u, later) == Lookup(kv, u, later)
    ensures Lookup(Delete(kv, s), u, later) == Lookup(kv, u, later)
  {
  }

  /** A revoked token stays revoked when a different token is created afterwards (the refresh rotation). */
  lemma SpentStaysSpent(kv: map<string, Entry>, s: string, t: RefreshToken, now: int, later: int)
    requires t.token != s
    ensures Lookup(Put(Delete(kv, s), t, now), s, later) == Failure(Sentinel(InvalidToken))
  {
  }

  class RedisTokenRepository {
    /** The whole Redis key space, prefixes other than `rt:` included. */
    var kv: map<string, Entry>

    constructor (initial: map<string, Entry>)
      ensures kv == initial
    {
      kv := initial;
    }

    /** `Create`; `fault` is a failure of the `SET` call, which then writes nothing. */
    method Create(t: RefreshToken, now: int, fault: Option<string>) returns (err: Option<Error>)
      modifies this
      ensures err == if fault.Some? then Some(Opaque(fault.value)) else None
      ensures kv == if fault.Some? then old(kv) else Put(old(kv), t, now)
    {
      if fault.Some? {
        return Some(Opaque(fault.value));
      }
      var ttl := t.expiresAt - now;
      kv := kv[TokenKey(t.token) := Entry(t, ExpiryFor(now, ttl))];
      err := None;
    }

    /** `GetByToken`; `fault` is a failure of the `GET` call, passed on as is. */
    method GetByToken(token: string, now: int, fault: Option<string>) returns (r: Result<RefreshToken, Error>)
      ensures r == if fault.Some? then Failure(Opaque(fault.value)) else Lookup(kv, token, now)
    {
      if fault.Some? {
        return Failure(Opaque(fault.value));
      }
      var k := TokenKey(token);
      if k in kv && Live(kv[k], now) {
        r := Success(kv[k].value);
      } else {
        r := Failure(Sentinel(InvalidToken));
      }
    }

    /** `Revoke`; `fault` is a failure of the `DEL` call, which then deletes nothing. */
    method Revoke(token: string, fault: Option<string>) returns (err: Option<Error>)
      modifies this
      ensures err == if fault.Some? then Some(Opaque(fault.value)) else None
      ensures kv == if fault.Some? then old(kv) else Delete(old(kv), token)
    {
      if fault.Some? {
        return Some(Opaque(fault.value));
      }
      kv := kv - {TokenKey(token)};
      err := None;
    }
  }
}
