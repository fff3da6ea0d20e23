/** One request cycle of `src/lib/rate-limiter.ts` on a fresh region, end to
    end: the admission check on an empty store, one preflight record, one
    authoritative update, and the admission check again. */
module Scenario {
  import opened Wrappers
  import opened Text
  import opened RateHeaders
  import opened WindowStore
  import opened Budget
  import opened Admission

  const AppOne: Key := Key("na1", AppScope, 1)
  const AppLong: Key := Key("na1", AppScope, 120)
  const Summoner: Key := Key("na1", "summoner", 10)

  /** The response headers of the scenario: 19 of 20 requests used in the
      one-second app window, 50 of 100 in the two-minute one (the strings are
      spelled out in `ReplyText`). */
  const Reply: RiotHeaders :=
    RiotHeaders(SerializePairs([(20, 1), (100, 120)]), SerializePairs([(19, 20), (50, 100)]), "", "")

  lemma WriteUsageExample()
    ensures SerializePairs([(19, 20), (50, 100)]) == "19:20,50:100"
  {
    assert SerializeSegment((19, 20)) == "19:20" by {
      assert NatToString(1) == "1" && NatToString(2) == "2";
    }
    assert SerializeSegment((50, 100)) == "50:100" by {
      assert NatToString(5) == "5" && NatToString(1) == "1" && NatToString(10) == "10";
    }
    SerializeTwo((19, 20), (50, 100));
  }

  /** The scenario's headers as the upstream service writes them. */
  lemma ReplyText()
    ensures Reply == RiotHeaders("20:1,100:120", "19:20,50:100", "", "")
  {
    WriteDefinitionExample();
    WriteUsageExample();
  }

  /** Two definitions and two usage readings, written as headers, pair up by
      position. */
  lemma TwoReadings(a: (nat, nat), b: (nat, nat), c: (nat, nat), d: (nat, nat))
    ensures WellFormedHeader(SerializePairs([a, b])) && WellFormedHeader(SerializePairs([c, d]))
    ensures ScopeWindows(SerializePairs([a, b]), SerializePairs([c, d]))
         == [ParsedWindow(a.0, a.1, c.0), ParsedWindow(b.0, b.1, d.0)]
  {
    LimitsOfSerialized([a, b]);
    CountsOfSerialized([c, d]);
    var ls := ParseRateLimitHeader(SerializePairs([a, b]));
    var cs := ParseRateLimitCountHeader(SerializePairs([c, d]));
    assert ls == [LimitDef(a.0, a.1), LimitDef(b.0, b.1)];
    assert cs == [CountDef(c.0, c.1), CountDef(d.0, d.1)];
    assert SerializePairs([a, b]) != "" && SerializePairs([c, d]) != "";
    var ws := ScopeWindows(SerializePairs([a, b]), SerializePairs([c, d]));
    assert |ws| == 2;
  }

  lemma ReplyWindows()
    ensures WellFormedHeaders(Reply)
    ensures ScopeWindows(Reply.appRateLimit, Reply.appRateLimitCount)
         == [ParsedWindow(20, 1, 19), ParsedWindow(100, 120, 50)]
    ensures ScopeWindows(Reply.methodRateLimit, Reply.methodRateLimitCount) == []
  {
    TwoReadings((20, 1), (100, 120), (19, 20), (50, 100));
  }

  /** The store after the first preflight record of the fresh region. */
  function AfterPreflight(now: nat): Store
  {
    map[AppOne := Window(1, 20, now + 1000), AppLong := Window(1, 100, now + 120000),
        Summoner := Window(1, 2000, now + 10000)]
  }

  /** The first preflight record of a fresh region creates its three windows. */
  lemma PreflightOnEmpty(now: nat)
    ensures RecordRequest(map[], now, "na1", "summoner") == AfterPreflight(now)
  {
  }

  /** Two readings of different intervals are two independent overwrites. */
  lemma WriteTwo(s: Store, now: nat, region: string, scope: string, a: ParsedWindow, b: ParsedWindow)
    ensures WriteAll(s, now, region, scope, [a, b])
         == s[KeyOf(region, scope, a) := WindowOf(now, a)][KeyOf(region, scope, b) := WindowOf(now, b)]
  {
    assert [a, b][1..] == [b];
    assert [b][1..] == [];
  }

  /** The two app readings, written over the preflight windows. */
  lemma AppReadingsOverPreflight(now: nat)
    ensures AfterPreflight(now)[AppOne := Window(19, 20, now + 1000)][AppLong := Window(50, 100, now + 120000)]
         == AfterReply(now)
  {
  }

  /** An update whose only readings are the scenario's two app windows. */
  lemma UpdateWithAppReadings(now: nat, h: RiotHeaders)
    requires WellFormedHeaders(h)
    requires ScopeWindows(h.appRateLimit, h.appRateLimitCount)
          == [ParsedWindow(20, 1, 19), ParsedWindow(100, 120, 50)]
    requires ScopeWindows(h.methodRateLimit, h.methodRateLimitCount) == []
    ensures UpdateRateLimits(AfterPreflight(now), now, "na1", "summoner", h) == AfterReply(now)
  {
    var s1 := AfterPreflight(now);
    UpdateIsTwoWrites(s1, now, "na1", "summoner", h);
    WriteTwo(s1, now, "na1", AppScope, ParsedWindow(20, 1, 19), ParsedWindow(100, 120, 50));
    var s2 := WriteAll(s1, now, "na1", AppScope, [ParsedWindow(20, 1, 19), ParsedWindow(100, 120, 50)]);
    assert WriteAll(s2, now, "na1", "summoner", []) == s2;
    AppReadingsOverPreflight(now);
  }

  /** The store after the preflight record and the authoritative update. */
  lemma StoreAfterReply(now: nat)
    ensures WellFormedHeaders(Reply)
    ensures UpdateRateLimits(RecordRequest(map[], now, "na1", "summoner"), now, "na1", "summoner", Reply)
         == AfterReply(now)
  {
    ReplyWindows();
    PreflightOnEmpty(now);
    UpdateWithAppReadings(now, Reply);
  }

  /** The scenario's store after the reply. */
  function AfterReply(now: nat): Store
  {
    map[AppOne := Window(19, 20, now + 1000), AppLong := Window(50, 100, now + 120000),
        Summoner := Window(1, 2000, now + 10000)]
  }

  /** The key lists the store enumerates after the reply. */
  lemma AfterReplyKeys(now: nat)
    ensures Enumerates([AppOne, AppLong], AfterReply(now), now, "na1", AppScope)
    ensures Enumerates([Summoner], AfterReply(now), now, "na1", "summoner")
  {
    assert AfterReply(now).Keys == {AppOne, AppLong, Summoner};
  }

  /** Checked at the instant of the reply, the store refuses the next call and
      names the one-second window's reset as the wait. */
  lemma DenyAfterReply(now: nat)
    ensures Enumerates([AppOne, AppLong], AfterReply(now), now, "na1", AppScope)
    ensures Enumerates([Summoner], AfterReply(now), now, "na1", "summoner")
    ensures var r := CheckRateLimits(AfterReply(now), now, "na1", "summoner", [AppOne, AppLong], [Summoner]);
      r.isRateLimited && r.retryAfter == Some(1000)
  {
    AfterReplyKeys(now);
    var s := AfterReply(now);
    assert Offending(s, now, AppOne);
    var r := CheckRateLimits(s, now, "na1", "summoner", [AppOne, AppLong], [Summoner]);
    var k :| Governs("na1", "summoner", k) && Offending(s, now, k) && r.retryAfter.value == TimeUntilReset(s[k], now);
    assert k in s.Keys;
    assert k == AppOne by {
      assert s.Keys == {AppOne, AppLong, Summoner};
      assert !Offending(s, now, AppLong) && !Offending(s, now, Summoner);
    }
  }

  /** A fresh region is admitted; after one preflight record and a reply saying
      19 of 20 requests were used this second, the next check refuses the call
      and asks the caller to wait the one second until that window resets. */
  lemma NewRegionScenario(now: nat)
    ensures Enumerates([], map[], now, "na1", AppScope) && Enumerates([], map[], now, "na1", "summoner")
    ensures CheckRateLimits(map[], now, "na1", "summoner", [], []) == RateLimitResponse(false, [], [], None)
    ensures WellFormedHeaders(Reply)
    ensures var s := UpdateRateLimits(RecordRequest(map[], now, "na1", "summoner"), now, "na1", "summoner", Reply);
      && Enumerates([AppOne, AppLong], s, now, "na1", AppScope)
      && Enumerates([Summoner], s, now, "na1", "summoner")
      && var r := CheckRateLimits(s, now, "na1", "summoner", [AppOne, AppLong], [Summoner]);
         r.isRateLimited && r.retryAfter == Some(1000)
  {
    NoWindowsAdmit(map[], now, "na1", "summoner", [], []);
    StoreAfterReply(now);
    DenyAfterReply(now);
  }
}
