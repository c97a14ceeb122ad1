/** `reqValidate`: the structural gate on a request, checked header first,
    then body, then region; the first failing check throws a plain `Error`.
    The body is the parsed request body, or `None` when it is `undefined`
    (a receiver that parsed no body). */
module Validate {
  import opened JsValue
  import opened Errors
  import opened Constants

  const InvalidHeaderMsg: string := "Invalid header signature"
  const InvalidBodyMsg: string := "Invalid request body"
  const InvalidRegionMsg: string := "Invalid region"

  /** A body that is present and is an array or an object. */
  predicate IsContainerBody(body: Option<JsonValue>) {
    body.Some? && (body.value.Arr? || body.value.Obj?)
  }

  /** What a well-formed request is: a non-empty header, a body that is an
      array or an object, and a supported region. */
  predicate ValidRequest(header: string, body: Option<JsonValue>, region: string) {
    header != "" && IsContainerBody(body) && region in Regions
  }

  /** The three guards in source order. The header is a string by its type,
      so `!header || typeof header !== "string"` reduces to emptiness; the
      body test is JavaScript's `!body || typeof body !== "object"`, in
      which `undefined` fails on truthiness. */
  function ReqValidate(header: string, body: Option<JsonValue>, region: string): (r: Outcome)
    ensures r == Pass <==> ValidRequest(header, body, region)
    ensures r.Fail? ==> r.err.PlainError?
    ensures r.Fail? ==> r.err.msg in {InvalidHeaderMsg, InvalidBodyMsg, InvalidRegionMsg}
  {
    if header == "" then Fail(PlainError(InvalidHeaderMsg))
    else if body.None? || !Truthy(body.value) || TypeOf(body.value) != "object" then
      Fail(PlainError(InvalidBodyMsg))
    else if region == "" || region !in Regions then Fail(PlainError(InvalidRegionMsg))
    else
      TruthyObjectIsContainer(body.value);
      Pass
  }

  /** An empty header is reported first, whatever the body and region. */
  lemma EmptyHeaderRejected(body: Option<JsonValue>, region: string)
    ensures ReqValidate("", body, region) == Fail(PlainError(InvalidHeaderMsg))
  {
  }

  /** With a valid header, a body that is `undefined`, null or not an object
      (a boolean, number or string) is reported, whatever the region. */
  lemma NonObjectBodyRejected(header: string, body: Option<JsonValue>, region: string)
    requires header != ""
    requires !IsContainerBody(body)
    ensures ReqValidate(header, body, region) == Fail(PlainError(InvalidBodyMsg))
  {
  }

  /** In particular, a missing (`undefined`) body is reported as an invalid body. */
  lemma UndefinedBodyRejected(header: string, region: string)
    requires header != ""
    ensures ReqValidate(header, None, region) == Fail(PlainError(InvalidBodyMsg))
  {
  }

  /** With a valid header and body, an empty or unsupported region is reported. */
  lemma UnknownRegionRejected(header: string, body: Option<JsonValue>, region: string)
    requires header != ""
    requires IsContainerBody(body)
    requires region !in Regions
    ensures ReqValidate(header, body, region) == Fail(PlainError(InvalidRegionMsg))
  {
  }

  /** The empty region is not a supported one, so `!region` adds no case of its own. */
  lemma EmptyRegionUnsupported()
    ensures "" !in Regions
  {
  }

  /** Order of the checks: the reported error names the earliest failing
      check in header, body, region order. */
  lemma FirstFailureReported(header: string, body: Option<JsonValue>, region: string)
    ensures header == "" ==> ReqValidate(header, body, region).err.msg == InvalidHeaderMsg
    ensures header != "" && !IsContainerBody(body) ==>
      ReqValidate(header, body, region).err.msg == InvalidBodyMsg
    ensures ReqValidate(header, body, region).Fail? && ReqValidate(header, body, region).err.msg == InvalidRegionMsg ==>
      header != "" && IsContainerBody(body) && region !in Regions
  {
  }

  /** Any array or object passes the body check, including empty ones and
      ones without a `triggered_at` member. */
  lemma EmptyContainersAccepted(header: string, region: string)
    requires header != "" && region in Regions
    ensures ReqValidate(header, Some(Arr([])), region) == Pass
    ensures ReqValidate(header, Some(Obj([])), region) == Pass
  {
  }
}
