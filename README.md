# contentstack-webhook-verify: the acceptance logic, in Dafny

This project models the decision logic of a webhook verifier for the
Contentstack platform: the checks that decide whether an incoming callback is
accepted or rejected. It covers:

- the structural gate `reqValidate`. It checks the header, then the body, then the region.
- the replay guard `replayVerify`. It rejects an event whose `triggered_at` is missing, unreadable or too old.
- the signature step `verifySignature`. It pulls the token out of the signature header and throws exactly when RSA-PSS verification fails.
- the entry point `verify`.
- the region table, the key-endpoint table and the default configuration record.

Everything in the core is pure, so the model is datatypes, functions and lemmas:

| file | module | models |
|---|---|---|
| `js_value.dfy` | `JsValue` | parsed JSON bodies, `undefined` as `None`, JavaScript truthiness and `typeof`, member lookup |
| `js_string.dfy` | `JsString` | `String.prototype.split` with a one-character separator, its inverse `join`, first-occurrence prefix/suffix |
| `errors.dfy` | `Errors` | the `WebhookError` / plain `Error` distinction, and check outcomes |
| `constants.dfy` | `Constants` | `CS_REGIONS`, `CS_REGIONS_URLS` |
| `configuration.dfy` | `Configuration` | the configuration record and `defaultConfig` |
| `validate.dfy` | `Validate` | `reqValidate` |
| `replay.dfy` | `Replay` | `replayVerify` |
| `signature.dfy` | `Signature` | `verifySignature` |
| `webhook.dfy` | `Webhook` | `verify`, as written and as intended |

Foreign calls become parameters:

- The clock is a `now` parameter, in milliseconds.
- `Date.parse` is a parameter `parse: string -> Option<int>`. `None` stands for `NaN`, and `new Date(s).getTime()` is taken to agree with it.
- `crypto.createPublicKey`, `crypto.verify` (RSASSA-PSS with SHA-256), `Buffer.from(JSON.stringify(body))` and base-64 decoding are the fields of a `Crypto` record. The model leaves them uninterpreted.

What the library does not do, although a reader might expect it:

- The library has no configuration resolver and no option validation.
- The region is a parameter of `verify`, not a configuration field that gets checked.
- The entry point contacts no key endpoint and does not check the signature.
- Errors are not unified into one tagged type. The replay guard throws `WebhookError`; the validator and the signature check throw plain `Error`s.
- A missing timestamp is a `WebhookError` whose message says so. There is no separate "malformed timestamp" kind.

## Model

| member | source | states |
|---|---|---|
| JsValue.TypeOf | src/utils/validate.ts:12 | `typeof` gives "object" exactly for null, arrays and objects |
| JsValue.TruthyObjectIsContainer | src/utils/validate.ts:12 | `v && typeof v === "object"` holds exactly of arrays and objects (null fails on truthiness) |
| JsValue.TruthyStringIsNonEmpty | src/utils/replay-verify.ts:18 | `v && typeof v === "string"` holds exactly of non-empty strings |
| JsValue.Lookup | src/index.ts:12 | a member lookup finds nothing exactly when no member has the key, and what it finds is a member's value |
| JsValue.LookupLastWins | src/index.ts:12 | the last member with a key determines the property, whatever precedes it |
| JsString.TakeUntil | src/utils/signature-verify.ts:9 | the result is a prefix of the input, free of the separator, and ends at the first separator if there is one |
| JsString.TakeUntilSkip | src/utils/signature-verify.ts:9 | a separator-free prefix is passed over whole |
| JsString.TakeUntilWhole | src/utils/signature-verify.ts:9 | a separator-free string is its own first piece |
| JsString.DropThrough | src/utils/signature-verify.ts:9 | a string is its first piece, the separator, then what follows |
| JsString.AroundFirst | src/utils/signature-verify.ts:9 | `a + sep + b` with `a` separator-free splits at the first separator into exactly `a` and `b` |
| JsString.Split | src/utils/signature-verify.ts:9 | `split` always yields at least one piece, and no piece contains the separator |
| JsString.SplitNoSeparator | src/utils/signature-verify.ts:9 | a string without the separator splits into itself alone |
| JsString.SplitAround | src/utils/signature-verify.ts:9 | the first separator ends the first piece; the remaining pieces are the split of the rest |
| JsString.SplitFirst | src/utils/signature-verify.ts:9 | piece 0 of a split is the text before the first separator |
| JsString.JoinSplit | src/utils/signature-verify.ts:9 | joining the pieces of a split with its separator restores the string |
| JsString.SplitJoin | src/utils/signature-verify.ts:9 | splitting a join of separator-free pieces restores the pieces |
| Constants.RegionsShape | src/constants/index.ts:1-9 | there are seven regions and the first is "NA" |
| Constants.RegionsDistinct | src/constants/index.ts:1-9 | no region is listed twice |
| Constants.UrlsCoverRegions | src/constants/index.ts:1-21 | the URL table's keys are exactly the listed regions |
| Constants.EndpointOfHost | src/constants/index.ts:12-20 | the scheme, a host and the key path form an HTTPS key endpoint |
| Constants.UrlsAreKeyEndpoints | src/constants/index.ts:11-21 | every URL starts with `https://` and ends with `/.well-known/public-keys.json` |
| Configuration.DefaultConfigValues | src/config/index.ts:4-10 | the default has replay checking on, a 300000 ms (positive) threshold, a 30000 ms (positive) timeout, region "NA" (a supported one) and no custom URL |
| Validate.ReqValidate | src/utils/validate.ts:3-19 | passes exactly for a non-empty header, an array or object body and a supported region; every failure is a plain `Error` with one of the three messages |
| Validate.EmptyHeaderRejected | src/utils/validate.ts:8-10 | an empty header fails with "Invalid header signature", whatever the body and region |
| Validate.NonObjectBodyRejected | src/utils/validate.ts:12-14 | with a valid header, an `undefined`, null, boolean, number or string body fails with "Invalid request body", whatever the region |
| Validate.UndefinedBodyRejected | src/utils/validate.ts:12-14 | with a valid header, a missing (`undefined`) body fails with "Invalid request body" |
| Validate.UnknownRegionRejected | src/utils/validate.ts:16-18 | with a valid header and body, an unsupported region fails with "Invalid region" |
| Validate.EmptyRegionUnsupported | src/utils/validate.ts:16 | the empty region is not a supported region |
| Validate.FirstFailureReported | src/utils/validate.ts:8-18 | the reported error is the earliest failing check in header, body, region order |
| Validate.EmptyContainersAccepted | src/utils/validate.ts:12-14 | an empty array and an empty object both pass the body check |
| Replay.ReplayVerify | src/utils/replay-verify.ts:15-34 | every error is a `WebhookError`, with one of the three messages |
| Replay.ReplayPassesIff | src/utils/replay-verify.ts:15-34 | passes exactly when checking is off, or the timestamp is a non-empty string that parses to a time at most the threshold before now |
| Replay.DisabledAcceptsAll | src/utils/replay-verify.ts:16 | switched off, any timestamp passes, including absent, empty or unparseable ones |
| Replay.MissingTimestampRejected | src/utils/replay-verify.ts:18-22 | switched on, an absent, non-string or empty timestamp fails with the "'triggered_at' is required" `WebhookError` |
| Replay.UnparseableTimestampRejected | src/utils/replay-verify.ts:24-26 | switched on, a non-empty unparseable timestamp fails with "Invalid 'triggered_at' format" |
| Replay.StaleEventRejected | src/utils/replay-verify.ts:31-33 | switched on, `now - t > threshold` fails with "Expired signature" |
| Replay.BoundaryAgeAccepted | src/utils/replay-verify.ts:31 | an event whose age equals the threshold passes |
| Replay.FutureEventAccepted | src/utils/replay-verify.ts:31 | with a non-negative threshold, a future timestamp passes |
| Replay.ThresholdMonotone | src/utils/replay-verify.ts:31 | a pass at threshold T stays a pass at every larger threshold |
| Replay.ClockMonotone | src/utils/replay-verify.ts:29-31 | a pass at time now stays a pass at every earlier time |
| Replay.DefaultWindowIsFiveMinutes | src/utils/replay-verify.ts:31 | under the default configuration, a parseable event passes exactly when it is at most 300000 ms old |
| Signature.TokenSpec | src/utils/signature-verify.ts:9 | the positional description of the token never contains `,` or `=` |
| Signature.SignatureTokenMatchesSpec | src/utils/signature-verify.ts:9 | the split-and-index extraction equals the positional description on every header |
| Signature.TokenHasNoSeparators | src/utils/signature-verify.ts:9 | the extracted token never contains `,` or `=` |
| Signature.SegmentToken | src/utils/signature-verify.ts:9 | within `name=value` plus padding, the text between the first two `=` is `value` |
| Signature.TokenOfNameValue | src/utils/signature-verify.ts:9 | `name=value` followed by nothing, a `,` or `=` padding yields exactly `value` |
| Signature.TokenDropsPadding | src/utils/signature-verify.ts:9 | trailing `=` padding is cut off: the token stops at the second `=` |
| Signature.PaddedExample | src/utils/signature-verify.ts:9 | "sig=ab==" yields "ab" |
| Signature.TokenIgnoresTail | src/utils/signature-verify.ts:9 | everything after the first `,` has no effect on the token |
| Signature.TokenEmptyWithoutEquals | src/utils/signature-verify.ts:9 | a first piece without `=` yields "" |
| Signature.TokenEmptyAfterBareEquals | src/utils/signature-verify.ts:9 | a first piece with nothing after its first `=` yields "" |
| Signature.VerifySignature | src/utils/signature-verify.ts:4-29 | a key the library cannot parse throws the library's error. Otherwise the call throws "Signature verification failed." exactly when RSA-PSS verification fails on (key, serialised body, decoded token) |
| Signature.VerdictIgnoresHeaderTail | src/utils/signature-verify.ts:9-25 | header attributes after the first `,` cannot change the verdict |
| Signature.HeaderWithoutTokenUsesEmptySignature | src/utils/signature-verify.ts:9-25 | a header with no `=` in its first piece is verified as the empty signature rather than rejected early |
| Webhook.EffectiveRegion | src/index.ts:9 | an omitted region is the first supported one; a given region is used as is |
| Webhook.TriggeredAt | src/index.ts:12 | the timestamp handed to the replay guard is the body's `triggered_at`: always `undefined` for an array, and for an object `undefined` exactly when no member names it |
| Webhook.Verify | src/index.ts:6-13 | succeeds exactly when validation passes and then the replay guard passes on `triggered_at`. A validation failure is returned unchanged; any later failure is a `WebhookError` |
| Webhook.DefaultRegionIsNA | src/index.ts:9 | omitting the region is the same as passing "NA" |
| Webhook.DefaultRegionPassesValidation | src/config/index.ts:8 | the default region passes the region check of `reqValidate` |
| Webhook.ValidationShortCircuits | src/index.ts:11-12 | a validation failure propagates unchanged, whatever the configuration and clock |
| Webhook.OnlyTriggeredAtMatters | src/index.ts:12 | two valid bodies that agree on `triggered_at` get the same verdict |
| Webhook.DefaultsAcceptFreshRequest | src/index.ts:6-13 | under the defaults, a non-empty header and a body whose `triggered_at` is at most five minutes old are accepted |
| Webhook.DefaultsRejectStaleRequest | src/index.ts:6-13 | under the defaults, 300001 ms of age means rejection as expired |
| Webhook.ReplayVerifyWithoutOptions | src/utils/replay-verify.ts:15-16 | with the options argument missing, the guard throws a runtime fault, not a `WebhookError` |
| Webhook.VerifyAsWritten | src/index.ts:6-13 | the entry point as written never succeeds; a validation failure is still returned unchanged |
| Webhook.AsWrittenRejectsFreshRequest | src/index.ts:12 | a fresh, valid request that the intended pipeline accepts fails as written |
| Webhook.AsWrittenAcceptsNothing | src/index.ts:11-12 | as written, every valid request fails with the same runtime fault |

## Findings

| source | as written | input that shows it | evidently intended | confidence | as-written member | corrected member |
|---|---|---|---|---|---|---|
| src/index.ts:12 | `replayVerify(reqBody.triggered_at)` passes no options, but `replayVerify` reads `options.replayVerify` straight away (src/utils/replay-verify.ts:16) | header "sig=abc", body `{"triggered_at": s}` with `s` a parseable, current timestamp, region omitted: a `TypeError` is thrown instead of success | pass the configuration, e.g. `defaultConfig`, as the second argument | high; not executed | Webhook.AsWrittenRejectsFreshRequest | Webhook.Verify |

## Left out

- Key retrieval (src/utils/request.ts) is network I/O and is not part of this model. That covers the HTTPS GET, the status rule, response accumulation and JSON parsing. The entry point does not call it.
- Cryptography is uninterpreted. That covers RSASSA-PSS with SHA-256 (section 8.1 of RFC 8017), PKCS#1 PEM key parsing and base-64 decoding (section 4 of RFC 4648). A key-parsing failure is an opaque thrown message.
- `JSON.stringify` and its byte encoding are an abstract function from body to bytes.
- `Date.parse` and the system clock are parameters. No date format is parsed.
- `Error.captureStackTrace` (src/utils/error.ts:14) is not modelled. Only an error's kind and message are kept.
- Header and region inputs are modelled only as strings, their declared type. A caller passing a non-string at run time is not modelled.
- The body is a parsed JSON value or `undefined`. Other JavaScript values, such as a function or a class instance, are not modelled. The body check would reject a function, because its `typeof` is not "object".
- JSON numbers are modelled as reals. Floating-point behaviour, `NaN` and infinities are not modelled. No core check inspects a number's value.
- Durations and clock values are unbounded integers. The millisecond arithmetic of `now - t` has no overflow in JavaScript at these magnitudes.
- The `Config` type is not declared in src/types/index.ts, so its fields come from src/config/index.ts:4-10.
- The library has no configuration resolver and no option validation, and `verify` fetches no key.
- Concurrency and cancellation: the core has none.
