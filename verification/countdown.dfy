/** The countdown of `src/components/global/RateLimitAlert.tsx`: seconds left
    before a retry, ticking once a second down to 0 and then clearing, with its
    `m ss` display and the retry button it gates. `None` is the state's `null`. */
module Countdown {
  import opened Wrappers
  import opened Text

  /** The initial state: `Math.ceil(retryAfter / 1000)` when `retryAfter` is
      truthy (present and non-zero), otherwise no countdown. */
  function InitialCountdown(retryAfter: Option<int>): (c: Option<int>)
    ensures c.Some? <==> retryAfter.Some? && retryAfter.value != 0
    ensures c.Some? ==> 1000 * (c.value - 1) < retryAfter.value <= 1000 * c.value
  {
    if retryAfter.Some? && retryAfter.value != 0 then Some(CeilDiv(retryAfter.value, 1000)) else None
  }

  /** The interval's updater: `null` or a non-positive count clears, a positive count decreases by one. */
  function Tick(c: Option<int>): (next: Option<int>)
    ensures next.Some? <==> c.Some? && c.value > 0
    ensures next.Some? ==> next.value == c.value - 1 && next.value >= 0
  {
    match c
    case None => None
    case Some(n) => if n <= 0 then None else Some(n - 1)
  }

  /** The state after `k` ticks. */
  function Ticks(c: Option<int>, k: nat): Option<int>
  {
    if k == 0 then c else Tick(Ticks(c, k - 1))
  }

  /** From `n` seconds the countdown shows `n - k` after `k <= n` ticks, and is
      cleared from tick `n + 1` on. */
  lemma {:induction false} CountdownRunsOut(n: nat, k: nat)
    ensures k <= n ==> Ticks(Some(n), k) == Some(n - k)
    ensures k > n ==> Ticks(Some(n), k) == None
  {
    if k > 0 {
      CountdownRunsOut(n, k - 1);
    }
  }

  /** `text` shows `m` minutes and `s` seconds: "{s}s" when `m` is 0, else "{m}m {ss}s". */
  predicate DisplaysAs(text: string, m: nat, s: nat) {
    && (m == 0 ==> text == NatToString(s) + "s")
    && (m > 0 ==> text == NatToString(m) + "m " + PadStart2(NatToString(s)) + "s")
  }

  /** `formatCountdown`: "" without a countdown; otherwise minutes and seconds
      with `Math.floor(c / 60)` and JavaScript's `c % 60` (which keeps the sign
      of `c`), "{s}s" when there are no minutes, else "{m}m {ss}s". */
  function FormatCountdown(c: Option<int>): (text: string)
    ensures c.None? ==> text == ""
    ensures c.Some? && c.value >= 0 ==>
      exists m: nat, s: nat :: c.value == 60 * m + s && s < 60 && DisplaysAs(text, m, s)
  {
    match c
    case None => ""
    case Some(n) =>
      var minutes := n / 60;
      var seconds := if n >= 0 then n % 60 else -((-n) % 60);
      var text :=
        if minutes == 0 then IntToString(seconds) + "s"
        else IntToString(minutes) + "m " + PadStart2(IntToString(seconds)) + "s";
      assert n >= 0 ==> DisplaysAs(text, n / 60, n % 60);
      text
  }

  /** The two displayed fields of a non-negative countdown read back as its
      minutes and seconds: the seconds field is two digits when minutes show. */
  lemma CountdownFields(n: nat)
    requires n >= 60
    ensures FormatCountdown(Some(n))
         == NatToString(n / 60) + "m " + PadStart2(NatToString(n % 60)) + "s"
    ensures var ss := PadStart2(NatToString(n % 60));
      |ss| == 2 && AllDigits(ss) && 60 * DigitsToNat(NatToString(n / 60)) + DigitsToNat(ss) == n
  {
    Pad2Reads(n % 60);
    NatStringRoundTrip(n / 60);
  }

  /** The retry button: `disabled` and its caption. */
  datatype RetryButton = RetryButton(disabled: bool, caption: string)

  /** Disabled exactly while a positive countdown runs, labelled "Retry in …"
      with the countdown; otherwise enabled as "Retry Now". The "Ready to retry"
      indicator shows under the same condition as "Retry Now". */
  function RetryButtonFor(c: Option<int>): (b: RetryButton)
    ensures b.disabled <==> c.Some? && c.value > 0
    ensures !b.disabled <==> b.caption == "Retry Now"
    ensures b.disabled ==> b.caption == "Retry in " + FormatCountdown(c)
  {
    if c.Some? && c.value > 0 then RetryButton(true, "Retry in " + FormatCountdown(c))
    else RetryButton(false, "Retry Now")
  }

  /** Starting from a delay, the button stays disabled for exactly as many ticks
      as the initial countdown has seconds, and is enabled from then on. */
  lemma {:induction false} ButtonEnablesWhenCountdownEnds(retryAfter: nat, k: nat)
    requires retryAfter > 0
    ensures var n := InitialCountdown(Some(retryAfter)).value;
      RetryButtonFor(Ticks(InitialCountdown(Some(retryAfter)), k)).disabled <==> k < n
  {
    var n := InitialCountdown(Some(retryAfter)).value;
    assert n >= 1;
    CountdownRunsOut(n, k);
  }
}
