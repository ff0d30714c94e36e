/** Values shared by the whole model. */
module Common {

  datatype Option<+T> = None | Some(value: T)

  datatype Result<+T, +E> = Ok(value: T) | Err(error: E)

  /** Envelope v1 (envelope.py). `created` is the instant `created_at` parses to, None when
      it does not parse; the display-only `subject` and `version` are not modelled. */
  datatype Envelope = Envelope(
    id: string,
    nonce: string,
    from_fqid: string,
    to_fqid: string,
    created: Option<real>,
    content_type: string,
    body: string,
    thread_id: Option<string>,
    reply_to: Option<string>,
    headers: map<string, string>,
    consent_token: Option<string>)

  /** An envelope with its detached signature; "" when unsigned. */
  datatype SignedEnvelope = SignedEnvelope(envelope: Envelope, signature: string) {
    predicate IsSigned() { signature != "" }
  }

  type byte = b: int | 0 <= b < 256

  type bytes = seq<byte>

  /** HMAC-SHA256 of a key and a message. */
  type Mac = (bytes, bytes) -> bytes

  const HASH_LEN := 32

  ghost predicate IsMac(mac: Mac) {
    forall k, m :: |mac(k, m)| == HASH_LEN
  }

  lemma Regroup<T>(a: seq<T>, b: seq<T>, c: seq<T>)
    ensures a + (b + c) == a + b + c
  {
  }
}
