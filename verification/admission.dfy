/** `checkRateLimits` of `src/lib/rate-limiter.ts`: a read-only fold over the
    live windows of the region's app scope and of the method's scope. A request
    is refused when any of them has used 95% or more of its limit, and the
    caller is told to wait for the slowest such window to reset. */
module Admission {
  import opened Wrappers
  import opened WindowStore

  /** One window as reported back to the caller. */
  datatype RateLimitInfo = RateLimitInfo(count: nat, limit: nat, interval: nat, resetTime: nat)

  /** The admission decision; `retryAfter` is in milliseconds (a JavaScript
      number, so any integer when the response comes from elsewhere). */
  datatype RateLimitResponse = RateLimitResponse(
    isRateLimited: bool,
    appLimits: seq<RateLimitInfo>,
    methodLimits: seq<RateLimitInfo>,
    retryAfter: Option<int>)

  /** `count >= limit * 0.95`, in integers. */
  predicate NearLimit(w: Window) {
    20 * w.count >= 19 * w.limit
  }

  /** `Math.max(0, resetTime - now)`. */
  function TimeUntilReset(w: Window, now: nat): nat
  {
    if w.resetTime > now then w.resetTime - now else 0
  }

  /** A live window at or above the threshold. */
  predicate Offending(s: Store, now: nat, k: Key) {
    IsLive(s, now, k) && NearLimit(s[k])
  }

  /** The windows that gate a call of `methodName` in `region`. */
  predicate Governs(region: string, methodName: string, k: Key) {
    k.region == region && (k.scope == AppScope || k.scope == methodName)
  }

  function InfoOf(k: Key, w: Window): RateLimitInfo
  {
    RateLimitInfo(w.count, w.limit, k.interval, w.resetTime)
  }

  /** What one `processKeys` pass accumulates. */
  datatype Scan = Scan(infos: seq<RateLimitInfo>, limited: bool, maxRetry: nat)

  /** `processKeys`: visits the keys in order, skips those that read as empty,
      reports every live window, and tracks whether any is near its limit and
      the largest time-until-reset among those that are. */
  function ProcessKeys(s: Store, now: nat, keys: seq<Key>): (r: Scan)
    ensures r.limited <==> exists i :: 0 <= i < |keys| && Offending(s, now, keys[i])
    ensures forall i :: 0 <= i < |keys| && Offending(s, now, keys[i]) ==>
      r.maxRetry >= TimeUntilReset(s[keys[i]], now)
    ensures r.limited ==>
      exists i :: 0 <= i < |keys| && Offending(s, now, keys[i]) && r.maxRetry == TimeUntilReset(s[keys[i]], now)
    ensures !r.limited ==> r.maxRetry == 0
    ensures (forall i :: 0 <= i < |keys| ==> IsLive(s, now, keys[i])) ==>
      |r.infos| == |keys| && forall i :: 0 <= i < |keys| ==> r.infos[i] == InfoOf(keys[i], s[keys[i]])
  {
    if keys == [] then Scan([], false, 0)
    else
      var init := keys[..|keys| - 1];
      var k := keys[|keys| - 1];
      var prev := ProcessKeys(s, now, init);
      assert forall i :: 0 <= i < |init| ==> init[i] == keys[i];
      match Lookup(s, now, k)
      case None => prev
      case Some(w) =>
        var infos := prev.infos + [InfoOf(k, w)];
        if NearLimit(w) then
          var t := TimeUntilReset(w, now);
          Scan(infos, true, if prev.maxRetry >= t then prev.maxRetry else t)
        else Scan(infos, prev.limited, prev.maxRetry)
  }

  /** The positions of the keys that are live at `now`, in increasing order. */
  ghost function LiveIndices(s: Store, now: nat, keys: seq<Key>): seq<nat>
    decreases |keys|
  {
    if keys == [] then []
    else
      var init := LiveIndices(s, now, keys[..|keys| - 1]);
      if IsLive(s, now, keys[|keys| - 1]) then init + [|keys| - 1] else init
  }

  /** `infos` reports, in order, exactly the windows of the keys at positions
      `idx`, and `idx` lists every live key's position, increasing. */
  ghost predicate ReportsLive(s: Store, now: nat, keys: seq<Key>, idx: seq<nat>, infos: seq<RateLimitInfo>) {
    && |idx| == |infos|
    && (forall j :: 0 <= j < |idx| ==>
          idx[j] < |keys| && IsLive(s, now, keys[idx[j]]) && infos[j] == InfoOf(keys[idx[j]], s[keys[idx[j]]]))
    && (forall j, j' :: 0 <= j < j' < |idx| ==> idx[j] < idx[j'])
    && (forall i :: 0 <= i < |keys| && IsLive(s, now, keys[i]) ==> i in idx)
  }

  /** Appending a live key extends the report by its window. */
  lemma ReportsLiveSnoc(s: Store, now: nat, init: seq<Key>, k: Key, idx: seq<nat>, infos: seq<RateLimitInfo>)
    requires ReportsLive(s, now, init, idx, infos)
    requires IsLive(s, now, k)
    ensures ReportsLive(s, now, init + [k], idx + [|init|], infos + [InfoOf(k, s[k])])
  {
    var keys := init + [k];
    var idx' := idx + [|init|];
    assert forall i :: 0 <= i < |init| ==> keys[i] == init[i];
    forall i | 0 <= i < |keys| && IsLive(s, now, keys[i]) ensures i in idx' {
      if i < |init| {
        assert i in idx;
      } else {
        assert idx'[|idx|] == i;
      }
    }
  }

  /** Appending a key that reads as empty leaves the report as it is. */
  lemma ReportsLiveSkip(s: Store, now: nat, init: seq<Key>, k: Key, idx: seq<nat>, infos: seq<RateLimitInfo>)
    requires ReportsLive(s, now, init, idx, infos)
    requires !IsLive(s, now, k)
    ensures ReportsLive(s, now, init + [k], idx, infos)
  {
    var keys := init + [k];
    assert forall i :: 0 <= i < |init| ==> keys[i] == init[i];
  }

  /** `processKeys` skips every key that reads as empty and reports every live
      one, in key order. */
  lemma {:induction false} ProcessKeysReportsLive(s: Store, now: nat, keys: seq<Key>)
    ensures ReportsLive(s, now, keys, LiveIndices(s, now, keys), ProcessKeys(s, now, keys).infos)
    decreases |keys|
  {
    if keys != [] {
      var init := keys[..|keys| - 1];
      var k := keys[|keys| - 1];
      assert keys == init + [k];
      ProcessKeysReportsLive(s, now, init);
      if IsLive(s, now, k) {
        ReportsLiveSnoc(s, now, init, k, LiveIndices(s, now, init), ProcessKeys(s, now, init).infos);
      } else {
        ReportsLiveSkip(s, now, init, k, LiveIndices(s, now, init), ProcessKeys(s, now, init).infos);
      }
    }
  }

  /** What `redis.keys("ratelimit:<region>:<scope>:*")` returns at `now`: every
      live key of that region and scope, once each, in some order. */
  ghost predicate Enumerates(keys: seq<Key>, s: Store, now: nat, region: string, scope: string) {
    && (forall i :: 0 <= i < |keys| ==> keys[i].region == region && keys[i].scope == scope && IsLive(s, now, keys[i]))
    && (forall k :: IsLive(s, now, k) && k.region == region && k.scope == scope ==> k in keys)
    && (forall i, j :: 0 <= i < j < |keys| ==> keys[i] != keys[j])
  }

  /** `checkRateLimits(region, method)` at `now`, given the key lists the store
      enumerates. It is limited exactly when some governing window is near its
      limit; then `retryAfter` is the largest time-until-reset among those
      windows, otherwise absent. Every live window is reported, in key order. */
  function CheckRateLimits(s: Store, now: nat, region: string, methodName: string,
                           appKeys: seq<Key>, methodKeys: seq<Key>): (r: RateLimitResponse)
    requires Enumerates(appKeys, s, now, region, AppScope)
    requires Enumerates(methodKeys, s, now, region, methodName)
    ensures r.isRateLimited <==> exists k :: Governs(region, methodName, k) && Offending(s, now, k)
    ensures r.retryAfter.Some? <==> r.isRateLimited
    ensures r.isRateLimited ==>
      && r.retryAfter.value >= 0
      && (forall k :: Governs(region, methodName, k) && Offending(s, now, k) ==>
            r.retryAfter.value >= TimeUntilReset(s[k], now))
      && (exists k :: Governs(region, methodName, k) && Offending(s, now, k)
            && r.retryAfter.value == TimeUntilReset(s[k], now))
    ensures |r.appLimits| == |appKeys|
    ensures forall i :: 0 <= i < |appKeys| ==> r.appLimits[i] == InfoOf(appKeys[i], s[appKeys[i]])
    ensures |r.methodLimits| == |methodKeys|
    ensures forall i :: 0 <= i < |methodKeys| ==> r.methodLimits[i] == InfoOf(methodKeys[i], s[methodKeys[i]])
  {
    var app := ProcessKeys(s, now, appKeys);
    var meth := ProcessKeys(s, now, methodKeys);
    var limited := app.limited || meth.limited;
    LimitedIffGovernedOffender(s, now, region, methodName, appKeys, methodKeys);
    RetryCoversOffenders(s, now, region, methodName, appKeys, methodKeys);
    RetryIsAttained(s, now, region, methodName, appKeys, methodKeys);
    RateLimitResponse(
      limited, app.infos, meth.infos,
      if limited then Some(Larger(app.maxRetry, meth.maxRetry)) else None)
  }

  /** `Math.max` of two retry delays. */
  function Larger(a: nat, b: nat): nat
  {
    if a >= b then a else b
  }

  /** One of the two passes is limited iff some governing window is near its limit. */
  lemma LimitedIffGovernedOffender(s: Store, now: nat, region: string, methodName: string,
                                   appKeys: seq<Key>, methodKeys: seq<Key>)
    requires Enumerates(appKeys, s, now, region, AppScope)
    requires Enumerates(methodKeys, s, now, region, methodName)
    ensures ProcessKeys(s, now, appKeys).limited || ProcessKeys(s, now, methodKeys).limited
        <==> exists k :: Governs(region, methodName, k) && Offending(s, now, k)
  {
    GovernedOffenders(s, now, region, methodName, appKeys, methodKeys);
    if ProcessKeys(s, now, appKeys).limited {
      var i :| 0 <= i < |appKeys| && Offending(s, now, appKeys[i]);
      assert Governs(region, methodName, appKeys[i]);
    } else if ProcessKeys(s, now, methodKeys).limited {
      var i :| 0 <= i < |methodKeys| && Offending(s, now, methodKeys[i]);
      assert Governs(region, methodName, methodKeys[i]);
    }
  }

  /** The combined delay is at least every governing offender's time until reset. */
  lemma RetryCoversOffenders(s: Store, now: nat, region: string, methodName: string,
                             appKeys: seq<Key>, methodKeys: seq<Key>)
    requires Enumerates(appKeys, s, now, region, AppScope)
    requires Enumerates(methodKeys, s, now, region, methodName)
    ensures forall k :: Governs(region, methodName, k) && Offending(s, now, k) ==>
      Larger(ProcessKeys(s, now, appKeys).maxRetry, ProcessKeys(s, now, methodKeys).maxRetry)
        >= TimeUntilReset(s[k], now)
  {
    GovernedOffenders(s, now, region, methodName, appKeys, methodKeys);
  }

  /** When limited, the combined delay is some governing offender's time until reset. */
  lemma RetryIsAttained(s: Store, now: nat, region: string, methodName: string,
                        appKeys: seq<Key>, methodKeys: seq<Key>)
    requires Enumerates(appKeys, s, now, region, AppScope)
    requires Enumerates(methodKeys, s, now, region, methodName)
    ensures var app := ProcessKeys(s, now, appKeys);
      var meth := ProcessKeys(s, now, methodKeys);
      app.limited || meth.limited ==>
        exists k :: Governs(region, methodName, k) && Offending(s, now, k)
          && Larger(app.maxRetry, meth.maxRetry) == TimeUntilReset(s[k], now)
  {
    var app := ProcessKeys(s, now, appKeys);
    var meth := ProcessKeys(s, now, methodKeys);
    GovernedOffenders(s, now, region, methodName, appKeys, methodKeys);
    if app.limited && app.maxRetry >= meth.maxRetry {
      var i :| 0 <= i < |appKeys| && Offending(s, now, appKeys[i]) && app.maxRetry == TimeUntilReset(s[appKeys[i]], now);
      assert Governs(region, methodName, appKeys[i]);
    } else if meth.limited {
      var i :| 0 <= i < |methodKeys| && Offending(s, now, methodKeys[i]) && meth.maxRetry == TimeUntilReset(s[methodKeys[i]], now);
      assert Governs(region, methodName, methodKeys[i]);
    }
  }

  /** The offending governing windows are exactly the offending keys of the two lists. */
  lemma GovernedOffenders(s: Store, now: nat, region: string, methodName: string,
                          appKeys: seq<Key>, methodKeys: seq<Key>)
    requires Enumerates(appKeys, s, now, region, AppScope)
    requires Enumerates(methodKeys, s, now, region, methodName)
    ensures forall k :: Governs(region, methodName, k) && Offending(s, now, k) ==>
      (exists i :: 0 <= i < |appKeys| && appKeys[i] == k) || (exists i :: 0 <= i < |methodKeys| && methodKeys[i] == k)
    ensures forall i :: 0 <= i < |appKeys| ==> Governs(region, methodName, appKeys[i])
    ensures forall i :: 0 <= i < |methodKeys| ==> Governs(region, methodName, methodKeys[i])
  {
  }

  /** With no live window for the region's app scope or the method's scope the
      check admits the call, lists nothing and gives no retry delay. */
  lemma NoWindowsAdmit(s: Store, now: nat, region: string, methodName: string,
                       appKeys: seq<Key>, methodKeys: seq<Key>)
    requires Enumerates(appKeys, s, now, region, AppScope)
    requires Enumerates(methodKeys, s, now, region, methodName)
    requires forall k :: Governs(region, methodName, k) ==> !IsLive(s, now, k)
    ensures CheckRateLimits(s, now, region, methodName, appKeys, methodKeys)
         == RateLimitResponse(false, [], [], None)
  {
    if |appKeys| > 0 {
      assert Governs(region, methodName, appKeys[0]);
    }
    if |methodKeys| > 0 {
      assert Governs(region, methodName, methodKeys[0]);
    }
  }
}
