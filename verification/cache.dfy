/**
 * The key/value cache with per-key expiry. An entry whose deadline has
 * passed is treated as absent; `GET` after the deadline misses.
 */
module Cache {
  import opened Wrappers
  import opened Notes

  /** Every `SET` of the handlers passes `{ EX: 60 }` (backend/server.js:52, 74). */
  const TtlSeconds: nat := 60

  datatype Entry = Entry(value: Body, expiresAt: nat)

  type Cache = map<string, Entry>

  predicate Live(cache: Cache, key: string, now: nat) {
    key in cache && now < cache[key].expiresAt
  }

  /** The two caches agree on every key outside `keys`. */
  ghost predicate SameExcept(c: Cache, c': Cache, keys: set<string>) {
    forall k :: k !in keys ==> (k in c <==> k in c') && (k in c ==> c[k] == c'[k])
  }

  /** `GET key` at time `now`. */
  function Get(cache: Cache, key: string, now: nat): (r: Option<Body>)
    ensures r.Some? <==> Live(cache, key, now)
    ensures r.Some? ==> r.value == cache[key].value
  {
    if Live(cache, key, now) then Some(cache[key].value) else None
  }

  /** `SET key value EX 60` at time `now`. */
  function Set(cache: Cache, key: string, value: Body, now: nat): (r: Cache)
    ensures key in r && r[key] == Entry(value, now + TtlSeconds)
    ensures Live(r, key, now) && r[key].value == value
    ensures !Live(r, key, now + TtlSeconds)
    ensures SameExcept(cache, r, {key})
  {
    cache[key := Entry(value, now + TtlSeconds)]
  }

  /** `DEL key`; deleting a key that is not there changes nothing. */
  function Del(cache: Cache, key: string): (r: Cache)
    ensures key !in r
    ensures SameExcept(cache, r, {key})
    ensures key !in cache ==> r == cache
  {
    cache - {key}
  }

  /** A value set at time `t` is still read back strictly before `t + 60`, and never from then on. */
  lemma SetExpires(cache: Cache, key: string, value: Body, t: nat, later: nat)
    requires t <= later
    ensures Get(Set(cache, key, value, t), key, later) == (if later < t + TtlSeconds then Some(value) else None)
  {
  }

  /** Invalidating twice is the same as invalidating once. */
  lemma DelIdempotent(cache: Cache, key: string)
    ensures Del(Del(cache, key), key) == Del(cache, key)
  {
  }
}
