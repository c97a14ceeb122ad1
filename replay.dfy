/** `replayVerify`: rejects an event whose `triggered_at` time is missing,
    unreadable, or older than the configured threshold. The clock and the
    engine's date parser are parameters: `now` is the current time and
    `parse` is `Date.parse`, both in milliseconds since the epoch, with
    `None` for `NaN`; `new Date(s).getTime()` is taken to agree with `parse`. */
module Replay {
  import opened JsValue
  import opened Errors
  import opened Configuration

  const MissingTimestampMsg: string := "Invalid Payload: 'triggered_at' is required and must be a string"
  const BadTimestampMsg: string := "Invalid 'triggered_at' format"
  const ExpiredMsg: string := "Expired signature: The webhook is too old"

  /** The guard. `triggeredAt` is the value the caller read from the body,
      `None` when the member is absent (`undefined`). The age test is
      one-sided: only an event older than the threshold is rejected. */
  function ReplayVerify(triggeredAt: Option<JsonValue>, options: Config, now: int,
                        parse: string -> Option<int>): (r: Outcome)
    ensures r.Fail? ==> r.err.WebhookError?
    ensures r.Fail? ==> r.err.msg in {MissingTimestampMsg, BadTimestampMsg, ExpiredMsg}
  {
    if !options.replayVerify then Pass
    else if triggeredAt.None? || !Truthy(triggeredAt.value) || TypeOf(triggeredAt.value) != "string" then
      Fail(WebhookError(MissingTimestampMsg))
    else
      var s := triggeredAt.value.s;
      if parse(s).None? then Fail(WebhookError(BadTimestampMsg))
      else
        var triggeredAtTimestamp := parse(s).value;
        if now - triggeredAtTimestamp > options.replayThreshold then Fail(WebhookError(ExpiredMsg))
        else Pass
  }

  /** When an event is fresh: its timestamp is a non-empty string that
      parses to a time no more than the threshold before `now`. */
  predicate FreshEvent(triggeredAt: Option<JsonValue>, threshold: int, now: int, parse: string -> Option<int>) {
    match triggeredAt
    case Some(Str(s)) => s != "" && parse(s).Some? && parse(s).value >= now - threshold
    case _ => false
  }

  /** The guard passes exactly when it is switched off or the event is fresh. */
  lemma ReplayPassesIff(triggeredAt: Option<JsonValue>, options: Config, now: int, parse: string -> Option<int>)
    ensures ReplayVerify(triggeredAt, options, now, parse) == Pass <==>
      (!options.replayVerify || FreshEvent(triggeredAt, options.replayThreshold, now, parse))
  {
    if triggeredAt.Some? {
      TruthyStringIsNonEmpty(triggeredAt.value);
    }
  }

  /** Switched off, the guard accepts every timestamp, even an absent,
      empty or unparseable one. */
  lemma DisabledAcceptsAll(triggeredAt: Option<JsonValue>, options: Config, now: int, parse: string -> Option<int>)
    requires !options.replayVerify
    ensures ReplayVerify(triggeredAt, options, now, parse) == Pass
  {
  }

  /** Switched on, an absent, non-string or empty timestamp is reported as missing. */
  lemma MissingTimestampRejected(triggeredAt: Option<JsonValue>, options: Config, now: int, parse: string -> Option<int>)
    requires options.replayVerify
    requires !(triggeredAt.Some? && triggeredAt.value.Str? && triggeredAt.value.s != "")
    ensures ReplayVerify(triggeredAt, options, now, parse) == Fail(WebhookError(MissingTimestampMsg))
  {
    if triggeredAt.Some? {
      TruthyStringIsNonEmpty(triggeredAt.value);
    }
  }

  /** Switched on, a non-empty timestamp the date parser rejects is reported as malformed. */
  lemma UnparseableTimestampRejected(s: string, options: Config, now: int, parse: string -> Option<int>)
    requires options.replayVerify && s != "" && parse(s).None?
    ensures ReplayVerify(Some(Str(s)), options, now, parse) == Fail(WebhookError(BadTimestampMsg))
  {
  }

  /** Switched on, an event older than the threshold is reported as expired. */
  lemma StaleEventRejected(s: string, t: int, options: Config, now: int, parse: string -> Option<int>)
    requires options.replayVerify && s != "" && parse(s) == Some(t)
    requires now - t > options.replayThreshold
    ensures ReplayVerify(Some(Str(s)), options, now, parse) == Fail(WebhookError(ExpiredMsg))
  {
  }

  /** The comparison is strict: an event exactly at the threshold age passes. */
  lemma BoundaryAgeAccepted(s: string, t: int, options: Config, parse: string -> Option<int>)
    requires s != "" && parse(s) == Some(t)
    ensures ReplayVerify(Some(Str(s)), options, t + options.replayThreshold, parse) == Pass
  {
  }

  /** One-sided: an event stamped in the future passes whenever the threshold is not negative. */
  lemma FutureEventAccepted(s: string, t: int, options: Config, now: int, parse: string -> Option<int>)
    requires s != "" && parse(s) == Some(t)
    requires t > now && options.replayThreshold >= 0
    ensures ReplayVerify(Some(Str(s)), options, now, parse) == Pass
  {
  }

  /** Widening the threshold never turns a pass into a failure. */
  lemma ThresholdMonotone(triggeredAt: Option<JsonValue>, options: Config, larger: int, now: int, parse: string -> Option<int>)
    requires larger >= options.replayThreshold
    requires ReplayVerify(triggeredAt, options, now, parse) == Pass
    ensures ReplayVerify(triggeredAt, options.(replayThreshold := larger), now, parse) == Pass
  {
  }

  /** An event that passes at `now` passes at every earlier time. */
  lemma ClockMonotone(triggeredAt: Option<JsonValue>, options: Config, now: int, earlier: int, parse: string -> Option<int>)
    requires earlier <= now
    requires ReplayVerify(triggeredAt, options, now, parse) == Pass
    ensures ReplayVerify(triggeredAt, options, earlier, parse) == Pass
  {
  }

  /** With the default configuration, an event at most five minutes old passes. */
  lemma DefaultWindowIsFiveMinutes(s: string, t: int, now: int, parse: string -> Option<int>)
    requires s != "" && parse(s) == Some(t)
    ensures ReplayVerify(Some(Str(s)), DefaultConfig, now, parse) == Pass <==> now - t <= 300000
  {
  }
}
