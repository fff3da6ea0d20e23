/** The Redis hashes `ratelimit:<region>:<scope>:<interval>` as a map from
    (region, scope, interval) to the window's `{count, limit, resetTime}`.

    Redis expires each key `interval` seconds after its `expire` call; the
    model takes that instant to be the `resetTime` written with it
    (`now + interval * 1000`), so a window is visible at time `now` iff it is
    present and `now < resetTime`. */
module WindowStore {
  import opened Wrappers

  /** The scope name the source uses for the application-wide budget. A method
      literally named "app" shares its keys, as the source's key strings do. */
  const AppScope: string := "app"

  datatype Key = Key(region: string, scope: string, interval: nat)

  /** `count` requests used of `limit`, until `resetTime` (milliseconds). */
  datatype Window = Window(count: nat, limit: nat, resetTime: nat)

  type Store = map<Key, Window>

  /** The key exists and has not yet expired at `now`. */
  predicate IsLive(s: Store, now: nat, k: Key) {
    k in s && now < s[k].resetTime
  }

  /** `hGetAll(key)`: the window, or `None` for an absent or expired key. */
  function Lookup(s: Store, now: nat, k: Key): (w: Option<Window>)
    ensures w.Some? <==> IsLive(s, now, k)
    ensures w.Some? ==> w.value == s[k]
  {
    if IsLive(s, now, k) then Some(s[k]) else None
  }

  /** The reset instant written with a window of `interval` seconds. */
  function ResetTime(now: nat, interval: nat): nat
  {
    now + interval * 1000
  }

  /** Key `k` is in the same state in both stores. */
  predicate SameAt(s: Store, r: Store, k: Key) {
    (k in s <==> k in r) && (k in s ==> s[k] == r[k])
  }
}
