# Riot API request-budget tracker: a Dafny model

This project models the request-budget tracker of the summoner-lookup web
application. The tracker sits in front of Riot's rate-limited REST API and
lives in `src/lib/rate-limiter.ts`. The model also covers the small pieces of
pure logic around it: the routing and label tables, the retry countdown, and
the match summary arithmetic.

The tracker keeps one counter window per `(region, scope, interval)`. The
scope is either the app-wide budget `"app"` or the name of an API method. The
tracker has three jobs:

- Before a call, `checkRateLimits` refuses the call when any live window of
  the region's app scope or of the method's scope has used 95% or more of its
  limit. It then reports the longest time until one of those windows resets.
- Before a call, `recordRequest` counts the call against three default
  windows: app 20/1 s, app 100/120 s and method 2000/10 s. It creates a
  missing window and increments a live one.
- After a call, `updateRateLimits` overwrites windows with the readings in
  Riot's `X-App-Rate-Limit(-Count)` and `X-Method-Rate-Limit(-Count)`
  headers. Definitions and counts are paired by position.

The Redis store is a Dafny `map<Key, Window>`. Every operation takes the
current time `now` (milliseconds) as a parameter. The two writers are pure
functions from store to store. The admission check is a read-only fold over
the windows. A Redis key expires `interval` seconds after its `expire` call,
and the model takes that instant to be the `resetTime` written with it. So a
window is visible at `now` iff it is present and `now < resetTime`. Redis
`KEYS` returns keys in no fixed order, so `CheckRateLimits` takes the two key
lists as parameters. Its precondition requires each list to hold every live
key of its scope, once.

The threshold `count >= limit * 0.95` is written in integers as
`20 * count >= 19 * limit`.

Modules, one per file:

- `Wrappers`: `Option` and `Result`.
- `Text`: numerals, `split`/`join` on one character, `padStart(2, '0')` and
  `Math.ceil` division.
- `RateHeaders`: the two header parsers.
- `WindowStore`: keys, windows and expiry.
- `Budget`: `updateRateLimits` and `recordRequest`.
- `Admission`: `checkRateLimits`.
- `ResponseFormat`: the message and header formatters.
- `Countdown`: the retry countdown of `RateLimitAlert.tsx`.
- `Lookups`: the tables of `src/utils/functions.ts` and the region picker.
- `MatchView`: `Match.tsx`.
- `Scenario`: one full request cycle on a fresh region.

Behaviour worth noting:

- Neither an upstream 429 nor a store failure has special handling in the
  tracker. There is no synthetic window after a 429, and there is no
  fail-open path.
- The "few seconds" bucket covers delays of at most 5 seconds after rounding
  up, not only those under 5 seconds.
- The `limit` half of each usage-header entry is parsed but never used.

One observation: the region picker offers `me1`, and `getRoutingValue`
rejects it (`Lookups.PickerRegionsRoute`). Which routing cluster was intended
for it is not evident from the code, so the model records the behaviour as
written.

## Model

| member | source | states |
|---|---|---|
| `Text.Split` | src/lib/rate-limiter.ts:29-30 | `split` on one character yields one part more than there are separators; no part contains the separator, and joining the parts gives back the input |
| `Text.SplitJoin` | src/lib/rate-limiter.ts:29-30 | splitting a join of separator-free parts recovers exactly those parts, in order |
| `Text.NatStringRoundTrip` | src/lib/rate-limiter.ts:30 | `Number` of a non-negative integer's decimal numeral is the integer |
| `Text.CanonicalRoundTrip` | src/lib/rate-limiter.ts:30 | a numeral without leading zeros is the decimal numeral of its own value |
| `Text.CeilDiv` | src/lib/rate-limiter.ts:260-262 | `Math.ceil(a / b)` is the least `q` with `a <= b*q` (so `b*(q-1) < a`) |
| `RateHeaders.ParseRateLimitHeader` | src/lib/rate-limiter.ts:24-36 | `[]` for an absent header; otherwise one definition per comma-separated segment (commas + 1), in input order, first number to `limit` and second to `interval` |
| `RateHeaders.ParseRateLimitCountHeader` | src/lib/rate-limiter.ts:42-54 | `[]` for an absent header; otherwise one reading per segment, in input order, first number to `count` and second to `limit` |
| `RateHeaders.ParseSerialize` | src/lib/rate-limiter.ts:27-35 | parsing a header written from any list of pairs gives back that list: no entry is reordered, dropped or invented |
| `RateHeaders.SerializeParse` | src/lib/rate-limiter.ts:27-35 | for a header with canonical numerals, re-joining the parsed pairs with `:` and `,` reproduces the header exactly |
| `RateHeaders.DefinitionHeaderExample` | src/lib/rate-limiter.ts:20-23 | `"20:1,100:120"` parses to 20 per 1 s and 100 per 120 s |
| `RateHeaders.CountHeaderExample` | src/lib/rate-limiter.ts:38-41 | `"1:20,13:100"` parses to 1 of 20 and 13 of 100 |
| `WindowStore.Lookup` | src/lib/rate-limiter.ts:144-146 | a key reads as a window exactly when it is present and not expired at `now` |
| `Budget.Pair` | src/lib/rate-limiter.ts:77-78 | definitions are paired with counts by position; the result is as long as the shorter list, so trailing definitions without a count are dropped |
| `Budget.ScopeWindows` | src/lib/rate-limiter.ts:73-78 | a scope yields no readings unless both of its headers are present; otherwise one per position both parsers cover, with the definition's limit and interval and the usage count |
| `Budget.WriteAll` | src/lib/rate-limiter.ts:77-91 | the store's keys become the old keys plus the written ones; each written key holds its last reading's count, limit and `now + interval*1000`, whatever it held before; every other key is unchanged |
| `Budget.UpdateRateLimits` | src/lib/rate-limiter.ts:59-117 | keys of other regions and scopes, and intervals not in the headers, are unchanged; with neither header pair present the store is unchanged; every method-scope reading, and every app-scope reading when the method is not named "app", overwrites its key |
| `Budget.Touch` | src/lib/rate-limiter.ts:213-228 | a missing or expired window is created with count 1, the default limit and a fresh reset time; a live one keeps its limit and reset time and gains 1 in count; no other key changes |
| `Budget.RecordRequest` | src/lib/rate-limiter.ts:195-248 | only the region's app 1 s and app 120 s windows and the method's 10 s window change |
| `Budget.RecordRequestWindows` | src/lib/rate-limiter.ts:203-247 | after a preflight step each of the three default windows is live; it holds count 1 with the default limit if it was absent, else its old count plus 1 |
| `Budget.RepeatedPreflightCounts` | src/lib/rate-limiter.ts:203-247 | K preflight calls, the last made before the first call's reset of a window that was absent at the first call, leave that window (app 1 s, app 120 s or method 10 s) with count K, its default limit and the first call's reset time |
| `Admission.ProcessKeys` | src/lib/rate-limiter.ts:140-176 | the pass is limited iff some visited key is a live window at or above 95%; its delay bounds every such window's time until reset and equals one of them, or is 0 when none; when every key is live, each is reported, in key order |
| `Admission.ProcessKeysReportsLive` | src/lib/rate-limiter.ts:143-166 | a key that reads as empty is skipped; the report lists exactly the windows of the live keys, in key order |
| `Admission.CheckRateLimits` | src/lib/rate-limiter.ts:123-189 | limited iff some live window of the region's app scope or the method's scope is at or above 95%; `retryAfter` is present iff limited, and then is the largest `max(0, resetTime - now)` among those windows; both window lists are reported in key order |
| `Admission.NoWindowsAdmit` | src/lib/rate-limiter.ts:131-137 | with no live window in either scope the response is not limited, with empty lists and no `retryAfter` |
| `ResponseFormat.RetrySeconds` | src/lib/rate-limiter.ts:260-262 | the delay in seconds is the least whole number covering `retryAfter` (missing counts as 0) |
| `ResponseFormat.FormatRateLimitMessage` | src/lib/rate-limiter.ts:253-274 | `''` iff not limited; at most 5 s gives "a few seconds", at most 60 s the exact seconds, beyond that the least whole number of minutes covering the delay, which is at least 2 and so always plural |
| `ResponseFormat.FewSecondsExample` | src/lib/rate-limiter.ts:264-265 | a 3000 ms delay gives the "a few seconds" message |
| `ResponseFormat.SecondsExample` | src/lib/rate-limiter.ts:266-267 | a 45000 ms delay gives "45 seconds" |
| `ResponseFormat.MinutesExample` | src/lib/rate-limiter.ts:268-272 | a 125000 ms delay gives "3 minutes" |
| `ResponseFormat.CreateRateLimitHeaders` | src/lib/rate-limiter.ts:279-293 | `Retry-After` is set iff limited with a non-zero delay, and then holds the fewest whole seconds covering the delay; `X-RateLimit-Remaining` is "0" iff limited, else "1" |
| `Countdown.InitialCountdown` | src/components/global/RateLimitAlert.tsx:19-21 | a countdown exists iff `retryAfter` is present and non-zero, and then is the fewest whole seconds covering it |
| `Countdown.Tick` | src/components/global/RateLimitAlert.tsx:39-45 | null and non-positive counts clear; a positive count goes down by exactly one |
| `Countdown.CountdownRunsOut` | src/components/global/RateLimitAlert.tsx:38-46 | from `n` the countdown shows `n - k` after `k <= n` ticks and is cleared after `n + 1` ticks or more |
| `Countdown.FormatCountdown` | src/components/global/RateLimitAlert.tsx:53-64 | null shows `''`; a count `60m + s` with `s < 60` shows `"{s}s"` when `m = 0`, else `"{m}m {ss}s"` with `s` padded to two digits |
| `Countdown.CountdownFields` | src/components/global/RateLimitAlert.tsx:56-63 | from one minute on, the seconds field is exactly two digits, and the two fields read back as the count |
| `Countdown.RetryButtonFor` | src/components/global/RateLimitAlert.tsx:75-97 | the button is disabled iff a positive countdown runs; it then reads "Retry in " plus the countdown, else "Retry Now" |
| `Countdown.ButtonEnablesWhenCountdownEnds` | src/components/global/RateLimitAlert.tsx:19-97 | after a positive delay the button is disabled for exactly as many ticks as the initial countdown has seconds |
| `Lookups.ToLower` | src/utils/functions.ts:16 | lower-casing keeps the length and lowers each character |
| `Lookups.GetRoutingValue` | src/utils/functions.ts:15-27 | na1/br1/la1/la2 route to americas, kr to asia, euw1/eun1/tr1/ru to europe, oc1/ph2/sg2/th1/tw2/vn2 to sea, compared in lower case; it fails iff the region is none of these, with "Unsupported region: " and the region as given |
| `Lookups.RoutingIgnoresCase` | src/utils/functions.ts:16-26 | two spellings equal in lower case are both accepted with the same cluster, or both rejected |
| `Lookups.PickerRegionsRoute` | src/utils/regions.ts:6-23 | every region the picker offers routes, except `me1`, which is rejected |
| `Lookups.GetGameModeLabel` | src/utils/functions.ts:29-48 | the ARAM mode is labelled "ARAM" whatever the queue; otherwise the six known queues get their labels and any other queue shows the game mode |
| `Lookups.AramQueueAlwaysAram` | src/utils/functions.ts:29-48 | queue 450 is labelled "ARAM" for every game mode |
| `Lookups.FormatRankQueueType` | src/utils/functions.ts:50-59 | the two ranked queue types get their labels; every other string is returned unchanged |
| `Lookups.FormatRankQueueTypeIdempotent` | src/utils/functions.ts:50-59 | formatting a queue type twice gives the same label as once |
| `Lookups.WinRateText` | src/utils/functions.ts:61-63 | the text is "0%" exactly when wins plus losses is 0 |
| `MatchView.FindFirst` | src/components/matches/Match.tsx:36 | `find` returns the first position satisfying the test, or none when no element does |
| `MatchView.GetParticipantData` | src/components/matches/Match.tsx:34-49 | no participant iff none has the puuid, and then `win` is false; otherwise the first participant with the puuid, and `win` iff the first team with its `teamId` won |
| `MatchView.FormatDuration` | src/components/matches/Match.tsx:90-94 | a duration `60m + s` with `s < 60` shows as `"{m}:{ss}"` with `s` padded to two digits |
| `MatchView.DurationRoundTrip` | src/components/matches/Match.tsx:90-94 | the duration string has the `m:ss` shape and reads back as the duration |
| `MatchView.CreepScore` | src/components/matches/Match.tsx:95-96 | the creep score is the minions killed plus the neutral monsters killed, a missing neutral count adding nothing |
| `Scenario.DenyAfterReply` | src/lib/rate-limiter.ts:168-185 | with 19 of 20 used in the 1 s window, 50 of 100 in the 120 s window and 1 of 2000 in the method window, the check refuses with `retryAfter` 1000 ms |
| `Scenario.NewRegionScenario` | src/lib/rate-limiter.ts:59-248 | a fresh region is admitted; after one preflight record and the reply `"20:1,100:120"` / `"19:20,50:100"`, the next check refuses with `retryAfter` 1000 ms |

## Left out

- The Redis client and all async plumbing (`src/lib/redis.ts`, every `await redis.*`). The store is an explicit map. `KEYS` glob matching becomes tuple keys, so a method name containing `:` cannot leak into another scope's pattern as it could in the source.
- Concurrency: lost-update races between simultaneous `recordRequest` calls, and the un-awaited `hSet`/`expire` of the method branch of `updateRateLimits`. Each operation is one atomic step at one `now`.
- Keys expiring between `KEYS` and `hGetAll`, or between `hGetAll` and `hIncrBy`. `ProcessKeys` keeps the skip of an empty hash (`Admission.ProcessKeysReportsLive`), but `CheckRateLimits` reads the whole store at one instant.
- WindowStore.Lookup: a window is taken to vanish at its `resetTime`. In the source `now` is read on entry and `expire` follows the awaited `hSet`, so the key outlives `resetTime` by that delay. In the gap `checkRateLimits` still counts the window, with its wait clamped to 0, and can answer limited with `retryAfter` 0; `createRateLimitHeaders` then omits `Retry-After`. In the same gap `recordRequest` increments the stale window instead of creating a new one. The model has no such gap, so neither outcome occurs in it.
- The wall clock. `Date.now()` is the `now` parameter. The `X-RateLimit-Reset` ISO date, `formatTimeAgo` and `date-fns` are not modelled.
- Malformed header numbers. `Number` can yield `NaN`, or 0 for an empty field, and a segment can have more or fewer than two fields. The parsers require an absent header or comma-separated `digits:digits` segments.
- Floating point. The 95% comparison is the integer `20*count >= 19*limit`. `retryAfter` and the countdown are integers of milliseconds and seconds.
- Lookups.WinRateText: the `toFixed(2)` percentage of the non-zero branch is `None`, because it is floating-point display text. The KDA and CS-per-minute `toFixed` values are left out for the same reason.
- Lookups.ToLower: only ASCII `A`–`Z` are lowered. Unicode case mapping is not modelled.
- React rendering, the toast, `setInterval` wiring, zustand stores, pagination, and the Data Dragon routes and store. The countdown's per-second timer is the `Ticks` iteration.
- The Unicode-class regular expressions of `src/hooks/useSearch.ts`.
- `sortByRole`, `truncateText`, `matchQueueType` and `calculateKillParticipation` are imported from `src/utils/functions.ts` but not defined there, so they are not part of this model.
- The 429 fallback of `src/utils/actions.ts` (a 10 s default when `Retry-After` is missing). It belongs to the network wrapper, not to the tracker.
- Budget.UpdateRateLimits: when the method is literally named "app", its writes land on the app scope's keys, as in the source. The contract then promises the method readings' values only, because those are written last.
