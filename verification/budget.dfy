/** The two writers of the window store in `src/lib/rate-limiter.ts`:
    `updateRateLimits` (authoritative readings from Riot's response headers)
    and `recordRequest` (the preflight increment with default limits). Both
    take the current time `now` explicitly and return the new store. */
module Budget {
  import opened Wrappers
  import opened RateHeaders
  import opened WindowStore

  /** The four Riot response headers; an absent header is "". */
  datatype RiotHeaders = RiotHeaders(
    appRateLimit: string,
    appRateLimitCount: string,
    methodRateLimit: string,
    methodRateLimitCount: string)

  predicate WellFormedHeaders(h: RiotHeaders) {
    && WellFormedHeader(h.appRateLimit)
    && WellFormedHeader(h.appRateLimitCount)
    && WellFormedHeader(h.methodRateLimit)
    && WellFormedHeader(h.methodRateLimitCount)
  }

  /** One authoritative window reading: the definition's limit and interval
      with the usage count at the same position. */
  datatype ParsedWindow = ParsedWindow(limit: nat, interval: nat, count: nat)

  /** The loop `for i < limits.length: if (counts[i]) …`: definitions are paired
      with counts by position, and definitions without a count are dropped. The
      limit half of a count entry is never used. */
  function Pair(limits: seq<LimitDef>, counts: seq<CountDef>): (ws: seq<ParsedWindow>)
    ensures |ws| == if |limits| <= |counts| then |limits| else |counts|
    ensures forall i :: 0 <= i < |ws| ==>
      ws[i] == ParsedWindow(limits[i].limit, limits[i].interval, counts[i].count)
  {
    if limits == [] || counts == [] then []
    else [ParsedWindow(limits[0].limit, limits[0].interval, counts[0].count)] + Pair(limits[1..], counts[1..])
  }

  /** The windows one scope's header pair yields: none unless both headers are present. */
  function ScopeWindows(definition: string, usage: string): (ws: seq<ParsedWindow>)
    requires WellFormedHeader(definition) && WellFormedHeader(usage)
    ensures definition == "" || usage == "" ==> ws == []
    ensures definition != "" && usage != "" ==>
      |ws| == if |ParseRateLimitHeader(definition)| <= |ParseRateLimitCountHeader(usage)|
              then |ParseRateLimitHeader(definition)| else |ParseRateLimitCountHeader(usage)|
    ensures forall i :: 0 <= i < |ws| ==>
      && ws[i].limit == ParseRateLimitHeader(definition)[i].limit
      && ws[i].interval == ParseRateLimitHeader(definition)[i].interval
      && ws[i].count == ParseRateLimitCountHeader(usage)[i].count
  {
    if definition == "" || usage == "" then []
    else Pair(ParseRateLimitHeader(definition), ParseRateLimitCountHeader(usage))
  }

  function KeyOf(region: string, scope: string, w: ParsedWindow): Key
  {
    Key(region, scope, w.interval)
  }

  /** The hash `hSet` writes for a reading taken at `now`. */
  function WindowOf(now: nat, w: ParsedWindow): Window
  {
    Window(w.count, w.limit, ResetTime(now, w.interval))
  }

  /** The keys a sequence of readings writes. */
  ghost function Touched(region: string, scope: string, ws: seq<ParsedWindow>): set<Key>
  {
    set i | 0 <= i < |ws| :: KeyOf(region, scope, ws[i])
  }

  /** No later reading has the same interval as reading `i`. */
  predicate LastFor(ws: seq<ParsedWindow>, i: nat)
    requires i < |ws|
  {
    forall j :: i < j < |ws| ==> ws[j].interval != ws[i].interval
  }

  /** The writes of one scope, in order: every reading overwrites its key with
      the reading's count, limit and `now + interval * 1000`, so each written key
      ends holding its last reading, whatever it held before; no other key changes. */
  function WriteAll(s: Store, now: nat, region: string, scope: string, ws: seq<ParsedWindow>): (r: Store)
    ensures r.Keys == s.Keys + Touched(region, scope, ws)
    ensures forall i :: 0 <= i < |ws| ==> KeyOf(region, scope, ws[i]) in r
    ensures forall k :: k !in Touched(region, scope, ws) ==> SameAt(s, r, k)
    ensures forall i :: 0 <= i < |ws| && LastFor(ws, i) ==>
      r[KeyOf(region, scope, ws[i])] == WindowOf(now, ws[i])
    decreases |ws|
  {
    if ws == [] then s
    else
      var r := WriteAll(s[KeyOf(region, scope, ws[0]) := WindowOf(now, ws[0])], now, region, scope, ws[1..]);
      assert Touched(region, scope, ws) == {KeyOf(region, scope, ws[0])} + Touched(region, scope, ws[1..]) by {
        forall k | k in Touched(region, scope, ws)
          ensures k in {KeyOf(region, scope, ws[0])} + Touched(region, scope, ws[1..])
        {
          var i :| 0 <= i < |ws| && k == KeyOf(region, scope, ws[i]);
          if i > 0 {
            assert k == KeyOf(region, scope, ws[1..][i - 1]);
          }
        }
        forall k | k in Touched(region, scope, ws[1..])
          ensures k in Touched(region, scope, ws)
        {
          var i :| 0 <= i < |ws[1..]| && k == KeyOf(region, scope, ws[1..][i]);
          assert k == KeyOf(region, scope, ws[i + 1]);
        }
      }
      assert forall i :: 1 <= i < |ws| && LastFor(ws, i) ==> LastFor(ws[1..], i - 1);
      assert LastFor(ws, 0) ==> KeyOf(region, scope, ws[0]) !in Touched(region, scope, ws[1..]);
      r
  }

  /** Some reading in `ws` has this interval. */
  predicate WritesInterval(ws: seq<ParsedWindow>, interval: nat) {
    exists i :: 0 <= i < |ws| && ws[i].interval == interval
  }

  /** `updateRateLimits` at time `now`: the app headers write the app scope, then
      the method headers write the method's scope. Other regions and scopes are
      untouched; a scope whose two headers are not both present is untouched; and
      each written key holds its last reading, overwriting prior state. */
  function UpdateRateLimits(s: Store, now: nat, region: string, methodName: string, h: RiotHeaders): (r: Store)
    requires WellFormedHeaders(h)
    ensures forall k: Key :: k.region != region || (k.scope != AppScope && k.scope != methodName) ==> SameAt(s, r, k)
    ensures forall k: Key ::
      !(k.scope == AppScope && WritesInterval(ScopeWindows(h.appRateLimit, h.appRateLimitCount), k.interval))
      && !(k.scope == methodName && WritesInterval(ScopeWindows(h.methodRateLimit, h.methodRateLimitCount), k.interval))
      ==> SameAt(s, r, k)
    ensures ((h.appRateLimit == "" || h.appRateLimitCount == "")
             && (h.methodRateLimit == "" || h.methodRateLimitCount == "")) ==> r == s
    ensures var ws := ScopeWindows(h.methodRateLimit, h.methodRateLimitCount);
      forall i :: 0 <= i < |ws| && LastFor(ws, i) ==>
        Key(region, methodName, ws[i].interval) in r
        && r[Key(region, methodName, ws[i].interval)] == WindowOf(now, ws[i])
    ensures methodName != AppScope ==>
      var ws := ScopeWindows(h.appRateLimit, h.appRateLimitCount);
      forall i :: 0 <= i < |ws| && LastFor(ws, i) ==>
        Key(region, AppScope, ws[i].interval) in r
        && r[Key(region, AppScope, ws[i].interval)] == WindowOf(now, ws[i])
  {
    var app := ScopeWindows(h.appRateLimit, h.appRateLimitCount);
    var methodWs := ScopeWindows(h.methodRateLimit, h.methodRateLimitCount);
    TwoScopeWrites(s, now, region, methodName, app, methodWs);
    WriteAll(WriteAll(s, now, region, AppScope, app), now, region, methodName, methodWs)
  }

  /** `updateRateLimits` is the app scope's writes followed by the method scope's. */
  lemma UpdateIsTwoWrites(s: Store, now: nat, region: string, methodName: string, h: RiotHeaders)
    requires WellFormedHeaders(h)
    ensures UpdateRateLimits(s, now, region, methodName, h)
         == WriteAll(WriteAll(s, now, region, AppScope, ScopeWindows(h.appRateLimit, h.appRateLimitCount)),
                     now, region, methodName, ScopeWindows(h.methodRateLimit, h.methodRateLimitCount))
  {
  }

  /** The app writes followed by the method writes, as one step. */
  lemma TwoScopeWrites(s: Store, now: nat, region: string, methodName: string,
                       app: seq<ParsedWindow>, methodWs: seq<ParsedWindow>)
    ensures var r := WriteAll(WriteAll(s, now, region, AppScope, app), now, region, methodName, methodWs);
      && (forall k: Key :: !(k.region == region && k.scope == AppScope && WritesInterval(app, k.interval))
            && !(k.region == region && k.scope == methodName && WritesInterval(methodWs, k.interval))
            ==> SameAt(s, r, k))
      && (forall i :: 0 <= i < |methodWs| && LastFor(methodWs, i) ==>
            Key(region, methodName, methodWs[i].interval) in r
            && r[Key(region, methodName, methodWs[i].interval)] == WindowOf(now, methodWs[i]))
      && (methodName != AppScope ==>
            forall i :: 0 <= i < |app| && LastFor(app, i) ==>
              Key(region, AppScope, app[i].interval) in r
              && r[Key(region, AppScope, app[i].interval)] == WindowOf(now, app[i]))
  {
    var s1 := WriteAll(s, now, region, AppScope, app);
    TouchedInScope(region, AppScope, app);
    TouchedInScope(region, methodName, methodWs);
  }

  lemma TouchedInScope(region: string, scope: string, ws: seq<ParsedWindow>)
    ensures forall k :: k in Touched(region, scope, ws) ==>
      k.region == region && k.scope == scope && WritesInterval(ws, k.interval)
    ensures ws == [] ==> Touched(region, scope, ws) == {}
  {
  }

  /** The preflight defaults: app 20 requests / 1 s and 100 / 120 s. */
  const DefaultAppLimits: seq<LimitDef> := [LimitDef(20, 1), LimitDef(100, 120)]

  /** The preflight default for a method scope: 2000 requests / 10 s. */
  const DefaultMethodLimits: seq<LimitDef> := [LimitDef(2000, 10)]

  /** One preflight step for key `k`: a missing or expired window is created
      with count 1, the default limit and a fresh reset time; a live window,
      authoritative or not, only has its count incremented. */
  function Touch(s: Store, now: nat, k: Key, limit: nat): (r: Store)
    ensures forall k' :: k' != k ==> SameAt(s, r, k')
    ensures k in r && r[k].count >= 1
    ensures !IsLive(s, now, k) ==> r[k] == Window(1, limit, ResetTime(now, k.interval))
    ensures IsLive(s, now, k) ==>
      r[k].count == s[k].count + 1 && r[k].limit == s[k].limit && r[k].resetTime == s[k].resetTime
  {
    match Lookup(s, now, k)
    case None => s[k := Window(1, limit, ResetTime(now, k.interval))]
    case Some(w) => s[k := w.(count := w.count + 1)]
  }

  /** `recordRequest(region, method)` at time `now`. */
  function RecordRequest(s: Store, now: nat, region: string, methodName: string): (r: Store)
    ensures forall k :: (k != Key(region, AppScope, 1) && k != Key(region, AppScope, 120)
                         && k != Key(region, methodName, 10)) ==> SameAt(s, r, k)
  {
    var s1 := Touch(s, now, Key(region, AppScope, DefaultAppLimits[0].interval), DefaultAppLimits[0].limit);
    var s2 := Touch(s1, now, Key(region, AppScope, DefaultAppLimits[1].interval), DefaultAppLimits[1].limit);
    Touch(s2, now, Key(region, methodName, DefaultMethodLimits[0].interval), DefaultMethodLimits[0].limit)
  }

  /** The three windows a preflight step counts against. */
  function PreflightKeys(region: string, methodName: string): seq<(Key, nat)>
  {
    [(Key(region, AppScope, 1), 20), (Key(region, AppScope, 120), 100), (Key(region, methodName, 10), 2000)]
  }

  /** A preflight step increments each of its three windows that is live and
      creates each that is not, with the default limit. */
  lemma RecordRequestWindows(s: Store, now: nat, region: string, methodName: string, j: nat)
    requires j < 3
    ensures var (k, limit) := PreflightKeys(region, methodName)[j];
      var r := RecordRequest(s, now, region, methodName);
      && IsLive(r, now, k)
      && (!IsLive(s, now, k) ==> r[k] == Window(1, limit, ResetTime(now, k.interval)))
      && (IsLive(s, now, k) ==> r[k] == s[k].(count := s[k].count + 1))
  {
  }

  /** `recordRequest` called once at each of the given instants, in order. */
  function RecordAt(s: Store, times: seq<nat>, region: string, methodName: string): Store
  {
    if times == [] then s
    else RecordRequest(RecordAt(s, times[..|times| - 1], region, methodName), times[|times| - 1], region, methodName)
  }

  /** K preflight calls made before a window that was absent at the first call
      resets leave that window with count K, its default limit and the reset
      time set by the first call. */
  lemma {:induction false} RepeatedPreflightCounts(s: Store, times: seq<nat>, region: string, methodName: string, j: nat)
    requires |times| > 0 && j < 3
    requires forall a, b :: 0 <= a < b < |times| ==> times[a] <= times[b]
    requires times[|times| - 1] < ResetTime(times[0], PreflightKeys(region, methodName)[j].0.interval)
    requires !IsLive(s, times[0], PreflightKeys(region, methodName)[j].0)
    ensures var (k, limit) := PreflightKeys(region, methodName)[j];
      var r := RecordAt(s, times, region, methodName);
      k in r && r[k] == Window(|times|, limit, ResetTime(times[0], k.interval))
  {
    var (k, limit) := PreflightKeys(region, methodName)[j];
    var n := |times|;
    var prefix := times[..n - 1];
    RecordRequestWindows(RecordAt(s, prefix, region, methodName), times[n - 1], region, methodName, j);
    if n > 1 {
      RepeatedPreflightCounts(s, prefix, region, methodName, j);
    }
  }
}
