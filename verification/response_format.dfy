/** The two pure formatters of `src/lib/rate-limiter.ts`: the user-facing
    message and the response headers built from an admission decision. */
module ResponseFormat {
  import opened Wrappers
  import opened Text
  import opened Admission

  const MessagePrefix: string := "Rate limit reached. Please try again in "

  /** `Math.ceil((retryAfter || 0) / 1000)`: the delay in whole seconds, rounded up. */
  function RetrySeconds(r: RateLimitResponse): (secs: int)
    ensures 1000 * (secs - 1) < r.retryAfter.GetOr(0) <= 1000 * secs
  {
    CeilDiv(r.retryAfter.GetOr(0), 1000)
  }

  /** `formatRateLimitMessage`: empty unless limited; otherwise bucketed by the
      delay in seconds: up to 5 "a few seconds", up to 60 the exact count, and
      beyond that the delay rounded up to whole minutes, always plural. */
  function FormatRateLimitMessage(r: RateLimitResponse): (msg: string)
    ensures msg == "" <==> !r.isRateLimited
    ensures r.isRateLimited && RetrySeconds(r) <= 5 ==> msg == MessagePrefix + "a few seconds."
    ensures r.isRateLimited && 5 < RetrySeconds(r) <= 60 ==>
      msg == MessagePrefix + NatToString(RetrySeconds(r)) + " seconds."
    ensures r.isRateLimited && RetrySeconds(r) > 60 ==>
      exists m: nat :: m >= 2 && 60 * (m - 1) < RetrySeconds(r) <= 60 * m
        && msg == MessagePrefix + NatToString(m) + " minutes."
  {
    if !r.isRateLimited then ""
    else
      var secs := RetrySeconds(r);
      if secs <= 5 then MessagePrefix + "a few seconds."
      else if secs <= 60 then MessagePrefix + NatToString(secs) + " seconds."
      else
        var minutes := CeilDiv(secs, 60);
        MessagePrefix + NatToString(minutes) + " minute" + (if minutes > 1 then "s" else "") + "."
  }

  /** A delay of 3 s is "a few seconds". */
  lemma FewSecondsExample()
    ensures FormatRateLimitMessage(RateLimitResponse(true, [], [], Some(3000)))
         == MessagePrefix + "a few seconds."
  {
    assert RetrySeconds(RateLimitResponse(true, [], [], Some(3000))) == 3;
  }

  /** A delay of 45 s is given exactly. */
  lemma SecondsExample()
    ensures FormatRateLimitMessage(RateLimitResponse(true, [], [], Some(45000)))
         == MessagePrefix + "45 seconds."
  {
    assert RetrySeconds(RateLimitResponse(true, [], [], Some(45000))) == 45;
    assert NatToString(45) == "45" by {
      assert NatToString(4) == "4";
    }
  }

  /** A delay of 125 s is rounded up to 3 minutes. */
  lemma MinutesExample()
    ensures FormatRateLimitMessage(RateLimitResponse(true, [], [], Some(125000)))
         == MessagePrefix + "3 minutes."
  {
    assert RetrySeconds(RateLimitResponse(true, [], [], Some(125000))) == 125;
    assert CeilDiv(125, 60) == 3;
    assert NatToString(3) == "3";
  }

  /** The headers `createRateLimitHeaders` sets, without `X-RateLimit-Reset`;
      `retryAfterHeader` is `None` when `Retry-After` is not set. */
  datatype LimitHeaders = LimitHeaders(retryAfterHeader: Option<string>, remaining: string)

  /** `createRateLimitHeaders`: `Retry-After` only for a limited response with a
      non-zero delay, holding the fewest whole seconds that cover the delay;
      `X-RateLimit-Remaining` "0" when limited and "1" otherwise. */
  function CreateRateLimitHeaders(r: RateLimitResponse): (h: LimitHeaders)
    ensures h.retryAfterHeader.Some? <==>
      r.isRateLimited && r.retryAfter.Some? && r.retryAfter.value != 0
    ensures h.retryAfterHeader.Some? && r.retryAfter.value > 0 ==>
      var v := h.retryAfterHeader.value;
      IsCanonical(v) && 1000 * (DigitsToNat(v) - 1) < r.retryAfter.value <= 1000 * DigitsToNat(v)
    ensures h.remaining == "0" <==> r.isRateLimited
    ensures h.remaining == "1" <==> !r.isRateLimited
  {
    var retryAfterHeader :=
      if r.isRateLimited && r.retryAfter.Some? && r.retryAfter.value != 0
      then Some(IntToString(CeilDiv(r.retryAfter.value, 1000)))
      else None;
    LimitHeaders(retryAfterHeader, if r.isRateLimited then "0" else "1")
  }
}
