/** The `aqid:` queue address and the deniable authenticator (anon_queue.py). */
module AnonQueue {
  import opened Common
  import opened Text
  import Base64Url

  const QUEUE_ID_LEN := 16

  const AQID_SCHEME := "aqid:"

  datatype FormatError = BadRelay | BadId | BadScheme | NoSeparator

  // ----- Address codec -----

  function EncodeAqid(relay: string, senderId: bytes): Result<string, FormatError> {
    if relay == "" then Err(BadRelay)
    else if '/' in relay then Err(BadRelay)
    else if |senderId| != QUEUE_ID_LEN then Err(BadId)
    else Ok(Address(relay, Base64Url.Encode(senderId)))
  }

  /** The text after the scheme and the first '/', the part read as base64. */
  function IdText(s: string): string {
    if !(AQID_SCHEME <= s) then ""
    else
      var body := s[|AQID_SCHEME|..];
      var relay := Before(body, '/');
      if relay == body then "" else body[|relay| + 1..]
  }

  /** What the library's decoder makes of a text that holds a character outside base64; None is
      its exception. */
  type Foreign = string -> Option<bytes>

  function DecodeText(foreign: Foreign, text: string): Option<bytes> {
    if Base64Url.Alphabetic(text) then Base64Url.Decode(text) else foreign(text)
  }

  function FromParts(foreign: Foreign, relay: string, text: string): Result<(string, bytes), FormatError> {
    if relay == "" then Err(BadRelay)
    else if text == "" then Err(BadId)
    else match DecodeText(foreign, text)
      case None => Err(BadId)
      case Some(id) => if |id| != QUEUE_ID_LEN then Err(BadId) else Ok((relay, id))
  }

  function DecodeAqid(foreign: Foreign, s: string): Result<(string, bytes), FormatError> {
    if !(AQID_SCHEME <= s) then Err(BadScheme)
    else if '/' !in s[|AQID_SCHEME|..] then Err(NoSeparator)
    else FromParts(foreign, Before(s[|AQID_SCHEME|..], '/'), IdText(s))
  }

  function Address(relay: string, text: string): string {
    AQID_SCHEME + relay + "/" + text
  }

  /** An address is `aqid:`, a relay, '/' and an id text, in exactly one way. */
  lemma Parts(foreign: Foreign, relay: string, text: string)
    requires '/' !in relay
    ensures IdText(Address(relay, text)) == text
    ensures DecodeAqid(foreign, Address(relay, text)) == FromParts(foreign, relay, text)
  {
    var s := Address(relay, text);
    var body := s[|AQID_SCHEME|..];
    assert AQID_SCHEME <= s;
    assert body == relay + "/" + text;
    assert body[|relay|] == '/';
    BeforeConcat(relay, '/', text);
    assert body[|relay| + 1..] == text;
  }

  lemma Assembled(s: string)
    requires AQID_SCHEME <= s && '/' in s[|AQID_SCHEME|..]
    ensures var relay := Before(s[|AQID_SCHEME|..], '/'); '/' !in relay && s == Address(relay, IdText(s))
  {
    var body := s[|AQID_SCHEME|..];
    BeforeSplits(body, '/');
    assert s == AQID_SCHEME + body;
    Regroup(AQID_SCHEME, Before(body, '/') + "/", IdText(s));
    Regroup(AQID_SCHEME, Before(body, '/'), "/");
  }

  /** Exactly a slash-free non-empty relay and a 16-byte id have an address, and the address
      names them. */
  lemma DecodeEncodeAqid(foreign: Foreign, relay: string, senderId: bytes)
    ensures EncodeAqid(relay, senderId).Ok? <==> relay != "" && '/' !in relay && |senderId| == QUEUE_ID_LEN
    ensures EncodeAqid(relay, senderId).Ok? ==>
              DecodeAqid(foreign, EncodeAqid(relay, senderId).value) == Ok((relay, senderId))
  {
    if EncodeAqid(relay, senderId).Ok? {
      var text := Base64Url.Encode(senderId);
      Base64Url.DecodeEncode(senderId);
      Base64Url.EncodeShape(senderId);
      Parts(foreign, relay, text);
      assert text != "";
    }
  }

  /** A text the decoder takes for an id: any 22 characters of the alphabet, whatever the four
      bits beyond the sixteenth octet hold, or a text with foreign characters of which the
      library makes 16 octets. */
  predicate IsIdText(foreign: Foreign, text: string) {
    if Base64Url.Alphabetic(text) then |text| == 22
    else foreign(text).Some? && |foreign(text).value| == QUEUE_ID_LEN
  }

  /** The texts the decoder takes are those of the documented shape. */
  lemma DecodesIff(foreign: Foreign, s: string)
    ensures DecodeAqid(foreign, s).Ok? <==>
            exists relay, text :: relay != "" && '/' !in relay && IsIdText(foreign, text) && s == Address(relay, text)
  {
    if DecodeAqid(foreign, s).Ok? {
      Assembled(s);
      IdTextIff(foreign, IdText(s));
    }
    if relay, text :| relay != "" && '/' !in relay && IsIdText(foreign, text) && s == Address(relay, text) {
      Parts(foreign, relay, text);
      IdTextIff(foreign, text);
    }
  }

  lemma IdTextIff(foreign: Foreign, text: string)
    ensures IsIdText(foreign, text) <==>
            DecodeText(foreign, text).Some? && |DecodeText(foreign, text).value| == QUEUE_ID_LEN
    ensures IsIdText(foreign, text) ==> text != ""
  {
    if Base64Url.Alphabetic(text) { Base64Url.DecodeLength(text); }
  }

  /** Re-encoding what an address names gives the address back exactly when its id text is
      canonical base64; every other accepted text is an alias of a canonical address. */
  lemma EncodeDecodeAqidIff(foreign: Foreign, s: string)
    requires DecodeAqid(foreign, s).Ok?
    ensures var (relay, id) := DecodeAqid(foreign, s).value;
            && EncodeAqid(relay, id).Ok?
            && (EncodeAqid(relay, id) == Ok(s) <==>
                Base64Url.Alphabetic(IdText(s)) && Base64Url.Canonical(IdText(s)))
  {
    var (relay, id) := DecodeAqid(foreign, s).value;
    Assembled(s);
    SameAddressIff(relay, Base64Url.Encode(id), IdText(s));
    if Base64Url.Alphabetic(IdText(s)) {
      Base64Url.EncodeDecodeIff(IdText(s));
    } else {
      Base64Url.DecodeEncode(id);
    }
  }

  lemma SameAddressIff(relay: string, text0: string, text1: string)
    ensures Address(relay, text0) == Address(relay, text1) <==> text0 == text1
  {
    var n := |AQID_SCHEME + relay + "/"|;
    assert Address(relay, text0)[n..] == text0;
    assert Address(relay, text1)[n..] == text1;
  }

  // ----- Deniable authenticator -----

  function AuthTag(mac: Mac, secret: bytes, message: bytes, nonce: bytes): bytes {
    mac(secret, nonce + message)
  }

  /** Any holder of the secret makes the tag it checks: this is why it is repudiable. */
  predicate VerifyTag(mac: Mac, secret: bytes, message: bytes, nonce: bytes, tag: bytes) {
    mac(secret, nonce + message) == tag
  }

  /** Two texts the MAC cannot tell apart under this secret. */
  predicate Collide(mac: Mac, secret: bytes, a: bytes, b: bytes) {
    a != b && mac(secret, a) == mac(secret, b)
  }

  /** The MAC sees only nonce and message joined. Short of a collision a tag stands for another
      pair exactly when the joined bytes agree; pairs whose nonces have one length then agree
      outright, so callers must fix the nonce's length. */
  lemma TagBindsIff(mac: Mac, secret: bytes, m0: bytes, n0: bytes, m1: bytes, n1: bytes)
    ensures VerifyTag(mac, secret, m1, n1, AuthTag(mac, secret, m0, n0)) <==>
            n0 + m0 == n1 + m1 || Collide(mac, secret, n0 + m0, n1 + m1)
    ensures |n0| == |n1| ==> (n0 + m0 == n1 + m1 <==> n0 == n1 && m0 == m1)
  {
    if |n0| == |n1| && n0 + m0 == n1 + m1 {
      assert (n0 + m0)[..|n0|] == n0 && (n0 + m0)[|n0|..] == m0;
      assert (n1 + m1)[..|n1|] == n1 && (n1 + m1)[|n1|..] == m1;
    }
  }
}
