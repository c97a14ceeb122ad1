/** `verifySignature`: extracts the signature token from the header and
    checks it against the platform's public key over the serialised body.
    The cryptography and serialisation are foreign calls, passed in as a
    `Crypto` record and left uninterpreted. */
module Signature {
  import opened JsValue
  import opened JsString
  import opened Errors

  newtype byte = x: int | 0 <= x < 256

  const SignatureFailedMsg: string := "Signature verification failed."

  /** The foreign operations, over a library key type `K`:
      `createPublicKey` parses a PKCS#1 PEM public key and may throw;
      `rsaPssVerify` is RSASSA-PSS with SHA-256 (`crypto.verify`);
      `serialise` is `Buffer.from(JSON.stringify(body))`;
      `base64Decode` is `Buffer.from(token, "base64")`. */
  datatype Crypto<!K> = Crypto(
    createPublicKey: string -> Result<K>,
    rsaPssVerify: (K, seq<byte>, seq<byte>) -> bool,
    serialise: JsonValue -> seq<byte>,
    base64Decode: string -> seq<byte>)

  /** `header.split(",")[0].split("=")[1] || ""`: the second `=`-piece of
      the first `,`-piece, or "" when there is none (`undefined`) or it is
      empty (already ""). */
  function SignatureToken(header: string): (token: string) {
    var parts := Split(Split(header, ',')[0], '=');
    if |parts| >= 2 then parts[1] else ""
  }

  /** The token described by position instead of by splitting: within the
      text before the first `,`, what lies between the first `=` and the
      next `=` (or the end); "" when that text has no `=`. */
  function TokenSpec(header: string): (token: string)
    ensures ',' !in token && '=' !in token
  {
    var segment := TakeUntil(header, ',');
    if '=' in segment then TakeUntil(DropThrough(segment, '='), '=') else ""
  }

  /** The split-based extraction and the positional description agree on every header. */
  lemma SignatureTokenMatchesSpec(header: string)
    ensures SignatureToken(header) == TokenSpec(header)
  {
    var segment := TakeUntil(header, ',');
    SplitFirst(header, ',');
    if '=' in segment {
      var name, rest := TakeUntil(segment, '='), DropThrough(segment, '=');
      SplitAround(name, rest, '=');
      SplitFirst(rest, '=');
    } else {
      SplitNoSeparator(segment, '=');
    }
  }

  /** The token never contains a `,` or an `=`. */
  lemma TokenHasNoSeparators(header: string)
    ensures ',' !in SignatureToken(header) && '=' !in SignatureToken(header)
  {
    SignatureTokenMatchesSpec(header);
  }

  /** Within a first piece `name=value` followed by nothing or by `=`
      padding, the text between the first `=` and the next is `value`. */
  lemma SegmentToken(name: string, value: string, padding: string)
    requires '=' !in name && '=' !in value
    requires padding == [] || padding[0] == '='
    ensures '=' in name + "=" + value + padding
    ensures TakeUntil(DropThrough(name + "=" + value + padding, '='), '=') == value
  {
    var segment := name + "=" + value + padding;
    assert segment == name + ['='] + (value + padding);
    AroundFirst(name, value + padding, '=');
    TakeUntilSkip(value, padding, '=');
    assert TakeUntil(padding, '=') == [];
    assert value + [] == value;
  }

  /** A header well-formed as `name=value`, followed by nothing, by a `,`
      and further attributes, or by `=` padding, yields exactly `value`. */
  lemma TokenOfNameValue(name: string, value: string, rest: string)
    requires ',' !in name && '=' !in name
    requires ',' !in value && '=' !in value
    requires rest == [] || rest[0] == ',' || rest[0] == '='
    ensures SignatureToken(name + "=" + value + rest) == value
  {
    var header := name + "=" + value + rest;
    var t := TakeUntil(rest, ',');
    assert t == [] || t[0] == '=';
    TakeUntilSkip(name + "=" + value, rest, ',');
    assert TakeUntil(header, ',') == name + "=" + value + t;
    SegmentToken(name, value, t);
    SignatureTokenMatchesSpec(header);
  }

  /** Base64 padding is lost: the token stops at the first padding `=`,
      e.g. "sig=ab==" yields "ab". */
  lemma TokenDropsPadding(name: string, value: string, padding: string)
    requires ',' !in name && '=' !in name
    requires ',' !in value && '=' !in value
    requires padding != [] && padding[0] == '='
    ensures SignatureToken(name + "=" + value + padding) == value
  {
    TokenOfNameValue(name, value, padding);
  }

  /** The concrete case: a padded signature "ab==" is read as "ab". */
  lemma PaddedExample()
    ensures SignatureToken("sig=ab==") == "ab"
  {
    TokenOfNameValue("sig", "ab", "==");
    assert "sig" + "=" + "ab" + "==" == "sig=ab==";
  }

  /** Everything after the first `,` is ignored. */
  lemma TokenIgnoresTail(first: string, tail: string)
    requires ',' !in first
    ensures SignatureToken(first + "," + tail) == SignatureToken(first)
  {
    SignatureTokenMatchesSpec(first + "," + tail);
    SignatureTokenMatchesSpec(first);
    AroundFirst(first, tail, ',');
    TakeUntilWhole(first, ',');
  }

  /** A first piece without `=` yields "", not an absent token. */
  lemma TokenEmptyWithoutEquals(header: string)
    requires '=' !in TakeUntil(header, ',')
    ensures SignatureToken(header) == ""
  {
    SignatureTokenMatchesSpec(header);
  }

  /** A first piece whose first `=` ends it yields "". */
  lemma TokenEmptyAfterBareEquals(name: string, rest: string)
    requires ',' !in name && '=' !in name
    requires rest == [] || rest[0] == ','
    ensures SignatureToken(name + "=" + rest) == ""
  {
    TokenOfNameValue(name, "", rest);
    assert name + "=" + "" + rest == name + "=" + rest;
  }

  /** The check itself: a key the library cannot parse throws its own
      error; otherwise the call throws "Signature verification failed."
      exactly when RSA-PSS verification of the decoded token over the
      serialised body fails. An empty token is still handed to the
      verifier. */
  function VerifySignature<K>(header: string, publicKeyPem: string, body: JsonValue, crypto: Crypto<K>): (r: Outcome)
    ensures crypto.createPublicKey(publicKeyPem).Thrown? ==>
      r == Fail(PlainError(crypto.createPublicKey(publicKeyPem).message))
    ensures crypto.createPublicKey(publicKeyPem).Ok? ==>
      (r == Pass <==> crypto.rsaPssVerify(crypto.createPublicKey(publicKeyPem).value,
                                          crypto.serialise(body),
                                          crypto.base64Decode(SignatureToken(header))))
    ensures r.Fail? ==> r.err.PlainError?
    ensures crypto.createPublicKey(publicKeyPem).Ok? && r.Fail? ==> r.err.msg == SignatureFailedMsg
  {
    var signature := SignatureToken(header);
    match crypto.createPublicKey(publicKeyPem)
    case Thrown(m) => Fail(PlainError(m))
    case Ok(publicKey) =>
      if !crypto.rsaPssVerify(publicKey, crypto.serialise(body), crypto.base64Decode(signature)) then
        Fail(PlainError(SignatureFailedMsg))
      else Pass
  }

  /** Attributes after the first `,` of the header cannot change the verdict. */
  lemma VerdictIgnoresHeaderTail<K>(first: string, tail1: string, tail2: string, publicKeyPem: string,
                                    body: JsonValue, crypto: Crypto<K>)
    requires ',' !in first
    ensures VerifySignature(first + "," + tail1, publicKeyPem, body, crypto)
         == VerifySignature(first + "," + tail2, publicKeyPem, body, crypto)
  {
    TokenIgnoresTail(first, tail1);
    TokenIgnoresTail(first, tail2);
  }

  /** A header with no `name=` part is checked as the empty signature, so
      it fails whenever the verifier rejects the empty signature. */
  lemma HeaderWithoutTokenUsesEmptySignature<K>(header: string, publicKeyPem: string, body: JsonValue, crypto: Crypto<K>)
    requires '=' !in TakeUntil(header, ',')
    requires crypto.createPublicKey(publicKeyPem).Ok?
    ensures VerifySignature(header, publicKeyPem, body, crypto) == Pass <==>
      crypto.rsaPssVerify(crypto.createPublicKey(publicKeyPem).value, crypto.serialise(body), crypto.base64Decode(""))
  {
    TokenEmptyWithoutEquals(header);
  }
}
