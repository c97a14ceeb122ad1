/** `verify`, the library entry point: validate the request, then run the
    replay guard on the body's `triggered_at`. It does not fetch the key or
    check the signature.

    The source's entry point calls `replayVerify` with the timestamp alone,
    although `replayVerify` reads `options.replayVerify` from its second
    parameter; as written, every request that passes validation then fails
    with a `TypeError` on that read. `VerifyAsWritten` models that call;
    `Verify` is the intended pipeline, taking the configuration explicitly. */
module Webhook {
  import opened JsValue
  import opened Errors
  import opened Constants
  import opened Configuration
  import opened Validate
  import opened Replay

  const TriggeredAtKey: string := "triggered_at"

  /** The message of the runtime fault raised by reading a property of `undefined`. */
  const UndefinedOptionsMsg: string := "Cannot read properties of undefined (reading 'replayVerify')"

  /** The region parameter with its default: `None` is an omitted (or
      `undefined`) argument and stands for the first supported region. */
  function EffectiveRegion(region: Option<string>): (r: string)
    ensures region.None? ==> r == Regions[0] && r in Regions
    ensures region.Some? ==> r == region.value
  {
    if region.Some? then region.value else Regions[0]
  }

  /** `reqBody.triggered_at`, read only once the body is known to be an
      array or an object. The key is not an array index, not `length` and
      not an inherited property name, so an array has no such property and
      an object has it exactly when one of its members names it. */
  function TriggeredAt(body: JsonValue): (t: Option<JsonValue>)
    requires body.Arr? || body.Obj?
    ensures body.Arr? ==> t.None?
    ensures body.Obj? ==> (t.None? <==> forall i :: 0 <= i < |body.members| ==> body.members[i].0 != TriggeredAtKey)
  {
    match body
    case Obj(members) => Lookup(members, TriggeredAtKey)
    case Arr(_) => None
  }

  /** The intended pipeline: the first failing stage's error, unchanged, or `Pass`. */
  function Verify(header: string, body: Option<JsonValue>, region: Option<string>, options: Config,
                  now: int, parse: string -> Option<int>): (r: Outcome)
    ensures r == Pass <==>
      ValidRequest(header, body, EffectiveRegion(region)) &&
      ReplayVerify(TriggeredAt(body.value), options, now, parse) == Pass
    ensures r.Fail? && !ValidRequest(header, body, EffectiveRegion(region)) ==>
      r == ReqValidate(header, body, EffectiveRegion(region))
    ensures r.Fail? && ValidRequest(header, body, EffectiveRegion(region)) ==> r.err.WebhookError?
  {
    var region := EffectiveRegion(region);
    var validation := ReqValidate(header, body, region);
    if validation.Fail? then validation
    else ReplayVerify(TriggeredAt(body.value), options, now, parse)
  }

  /** Omitting the region is the same as passing "NA". */
  lemma DefaultRegionIsNA(header: string, body: Option<JsonValue>, options: Config, now: int, parse: string -> Option<int>)
    ensures Verify(header, body, None, options, now, parse) == Verify(header, body, Some("NA"), options, now, parse)
  {
  }

  /** The default configuration's region is supported, so a request with a
      non-empty header and an array or object body passes validation in it. */
  lemma DefaultRegionPassesValidation(header: string, body: Option<JsonValue>)
    requires header != ""
    requires IsContainerBody(body)
    ensures ReqValidate(header, body, DefaultConfig.region) == Pass
  {
    DefaultConfigValues();
  }

  /** A validation failure is reported unchanged and the replay guard is
      not consulted: the failure is the same under every configuration and clock. */
  lemma ValidationShortCircuits(header: string, body: Option<JsonValue>, region: Option<string>,
                                options1: Config, now1: int, options2: Config, now2: int,
                                parse: string -> Option<int>)
    requires ReqValidate(header, body, EffectiveRegion(region)).Fail?
    ensures Verify(header, body, region, options1, now1, parse) == ReqValidate(header, body, EffectiveRegion(region))
    ensures Verify(header, body, region, options1, now1, parse) == Verify(header, body, region, options2, now2, parse)
  {
  }

  /** Of the body, the replay guard sees only `triggered_at`: two valid
      bodies that agree on it get the same verdict. */
  lemma OnlyTriggeredAtMatters(header: string, body1: Option<JsonValue>, body2: Option<JsonValue>, region: Option<string>,
                               options: Config, now: int, parse: string -> Option<int>)
    requires IsContainerBody(body1)
    requires IsContainerBody(body2)
    requires TriggeredAt(body1.value) == TriggeredAt(body2.value)
    ensures Verify(header, body1, region, options, now, parse) == Verify(header, body2, region, options, now, parse)
  {
  }

  /** With the default configuration and region, a request with a
      non-empty header and an object body whose last `triggered_at` member
      is a timestamp at most five minutes old is accepted. */
  lemma DefaultsAcceptFreshRequest(header: string, members: seq<(string, JsonValue)>, s: string,
                                   later: seq<(string, JsonValue)>, t: int, now: int,
                                   parse: string -> Option<int>)
    requires header != ""
    requires forall i :: 0 <= i < |later| ==> later[i].0 != TriggeredAtKey
    requires s != "" && parse(s) == Some(t)
    requires now - t <= 300000
    ensures Verify(header, Some(Obj(members + [(TriggeredAtKey, Str(s))] + later)), None, DefaultConfig, now, parse) == Pass
  {
    LookupLastWins(members, TriggeredAtKey, Str(s), later);
  }

  /** The same request, `DefaultConfig.replayThreshold` plus one millisecond
      old, is rejected as expired. */
  lemma DefaultsRejectStaleRequest(header: string, s: string, t: int, parse: string -> Option<int>)
    requires header != ""
    requires s != "" && parse(s) == Some(t)
    ensures Verify(header, Some(Obj([(TriggeredAtKey, Str(s))])), None, DefaultConfig, t + 300001, parse)
         == Fail(WebhookError(ExpiredMsg))
  {
    LookupLastWins([], TriggeredAtKey, Str(s), []);
    assert [] + [(TriggeredAtKey, Str(s))] + [] == [(TriggeredAtKey, Str(s))];
  }

  /** `replayVerify(triggeredAt)` with its options argument missing:
      reading `options.replayVerify` from `undefined` throws before any check. */
  function ReplayVerifyWithoutOptions(triggeredAt: Option<JsonValue>): (r: Outcome)
    ensures r.Fail? && r.err.PlainError?
  {
    Fail(PlainError(UndefinedOptionsMsg))
  }

  /** The entry point as written, with the one-argument replay call. */
  function VerifyAsWritten(header: string, body: Option<JsonValue>, region: Option<string>): (r: Outcome)
    ensures r.Fail?
    ensures !ValidRequest(header, body, EffectiveRegion(region)) ==> r == ReqValidate(header, body, EffectiveRegion(region))
  {
    var region := EffectiveRegion(region);
    var validation := ReqValidate(header, body, region);
    if validation.Fail? then validation
    else ReplayVerifyWithoutOptions(TriggeredAt(body.value))
  }

  /** As written, even a valid request with a fresh timestamp — one the
      intended pipeline accepts — fails, and with a runtime fault rather
      than one of the library's own errors. */
  lemma AsWrittenRejectsFreshRequest(header: string, s: string, t: int, parse: string -> Option<int>)
    requires header != ""
    requires s != "" && parse(s) == Some(t)
    ensures Verify(header, Some(Obj([(TriggeredAtKey, Str(s))])), None, DefaultConfig, t, parse) == Pass
    ensures VerifyAsWritten(header, Some(Obj([(TriggeredAtKey, Str(s))])), None) == Fail(PlainError(UndefinedOptionsMsg))
  {
    LookupLastWins([], TriggeredAtKey, Str(s), []);
    assert [] + [(TriggeredAtKey, Str(s))] + [] == [(TriggeredAtKey, Str(s))];
  }

  /** As written, no request is ever accepted, and every valid one fails
      with the same runtime fault. */
  lemma AsWrittenAcceptsNothing(header: string, body: Option<JsonValue>, region: Option<string>)
    ensures VerifyAsWritten(header, body, region).Fail?
    ensures ValidRequest(header, body, EffectiveRegion(region)) ==>
      VerifyAsWritten(header, body, region) == Fail(PlainError(UndefinedOptionsMsg))
  {
  }
}
