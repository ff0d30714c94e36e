/** The no-identity frame and the two-party channel over it (anon_transport.py). The MAC, the
    nonces, the queue ids and the padding filler are arguments. */
module AnonTransport {
  import opened Common
  import opened AnonQueue
  import opened Padding

  /** "SKCANON1" and a NUL. */
  const ANON_MAGIC: bytes := [83, 75, 67, 65, 78, 79, 78, 49, 0]

  const FRAME_VERSION: byte := 1

  const NONCE_LEN := 16

  const TAG_LEN := HASH_LEN

  const OFF_SID := |ANON_MAGIC| + 1
  const OFF_NONCE := OFF_SID + QUEUE_ID_LEN
  const OFF_TAG := OFF_NONCE + NONCE_LEN
  const OFF_BODY := OFF_TAG + TAG_LEN

  datatype AnonError = Disabled | NotAFrame | TooShort | BadVersion | WrongQueue | BadSenderId
    | BadSecret | BadNonce | BadAuth | BadPadding(padding: PaddingError) | BadAddress(format: FormatError)

  datatype AnonFrame = AnonFrame(senderId: bytes, payload: bytes)

  /** What a sender brings to one frame: the per-call switch, the environment's switch, a nonce
      and the padding. */
  datatype Sending = Sending(override: Option<bool>, environment: bool, nonce: bytes,
                             ladder: seq<nat>, filler: bytes) {
    predicate Enabled() {
      match override case Some(on) => on case None => environment
    }
  }

  ghost predicate FillerFits(payload: bytes, how: Sending) {
    IsLadder(how.ladder) && |how.filler| == FillerLength(payload, how.ladder)
  }

  /** The layout: magic, version, sender id, nonce, tag over all the rest, padded body. */
  function Wire(mac: Mac, secret: bytes, senderId: bytes, nonce: bytes, padded: bytes): bytes {
    ANON_MAGIC + [FRAME_VERSION] + senderId + nonce
    + AuthTag(mac, secret, [FRAME_VERSION] + senderId + padded, nonce) + padded
  }

  function FrameAnon(mac: Mac, payload: bytes, senderId: bytes, secret: bytes, how: Sending): Result<bytes, AnonError>
    requires FillerFits(payload, how)
  {
    if !how.Enabled() then Err(Disabled)
    else if |senderId| != QUEUE_ID_LEN then Err(BadSenderId)
    else if secret == [] then Err(BadSecret)
    else if |how.nonce| != NONCE_LEN then Err(BadNonce)
    else match PadToBucket(payload, how.ladder, how.filler)
      case Err(e) => Err(BadPadding(e))
      case Ok(padded) => Ok(Wire(mac, secret, senderId, how.nonce, padded))
  }

  predicate IsAnonFrame(wire: bytes) {
    ANON_MAGIC <= wire
  }

  /** All a relay reads. */
  function ReadSenderId(wire: bytes): Result<bytes, AnonError> {
    if !IsAnonFrame(wire) then Err(NotAFrame)
    else if |wire| < OFF_NONCE then Err(TooShort)
    else Ok(wire[OFF_SID..OFF_NONCE])
  }

  function ParseAnon(mac: Mac, wire: bytes, secret: bytes, expected: Option<bytes>): Result<AnonFrame, AnonError> {
    if !IsAnonFrame(wire) then Err(NotAFrame)
    else if |wire| < OFF_BODY then Err(TooShort)
    else if wire[|ANON_MAGIC|] != FRAME_VERSION then Err(BadVersion)
    else
      var sid := wire[OFF_SID..OFF_NONCE];
      var nonce := wire[OFF_NONCE..OFF_TAG];
      var tag := wire[OFF_TAG..OFF_BODY];
      var padded := wire[OFF_BODY..];
      if expected.Some? && sid != expected.value then Err(WrongQueue)
      else if secret == [] then Err(BadSecret)
      else if !VerifyTag(mac, secret, [wire[|ANON_MAGIC|]] + sid + padded, nonce, tag) then Err(BadAuth)
      else match Unpad(padded)
        case Err(e) => Err(BadPadding(e))
        case Ok(payload) => Ok(AnonFrame(sid, payload))
  }

  // ----- What the parser accepts -----

  /** Slicing the layout at the parser's offsets gives the fields back. */
  lemma Fields(sid: bytes, nonce: bytes, tag: bytes, padded: bytes)
    requires |sid| == QUEUE_ID_LEN && |nonce| == NONCE_LEN && |tag| == TAG_LEN
    ensures var w := ANON_MAGIC + [FRAME_VERSION] + sid + nonce + tag + padded;
            |w| >= OFF_BODY && ANON_MAGIC <= w && w[|ANON_MAGIC|] == FRAME_VERSION
            && w[OFF_SID..OFF_NONCE] == sid && w[OFF_NONCE..OFF_TAG] == nonce
            && w[OFF_TAG..OFF_BODY] == tag && w[OFF_BODY..] == padded
  {
  }

  /** And joining the slices gives the wire back. */
  lemma Rejoined(w: bytes)
    requires |w| >= OFF_BODY && ANON_MAGIC <= w && w[|ANON_MAGIC|] == FRAME_VERSION
    ensures w == ANON_MAGIC + [FRAME_VERSION] + w[OFF_SID..OFF_NONCE] + w[OFF_NONCE..OFF_TAG]
                 + w[OFF_TAG..OFF_BODY] + w[OFF_BODY..]
  {
    assert w[..|ANON_MAGIC|] == ANON_MAGIC;
    assert w == w[..|ANON_MAGIC|] + [w[|ANON_MAGIC|]] + w[OFF_SID..OFF_NONCE] + w[OFF_NONCE..OFF_TAG]
                + w[OFF_TAG..OFF_BODY] + w[OFF_BODY..];
  }

  /** The wires that open to a frame are exactly those of the layout, tagged under the secret,
      whose body unpads to its payload, on the expected queue. */
  lemma ParsesIff(mac: Mac, wire: bytes, secret: bytes, expected: Option<bytes>, frame: AnonFrame)
    requires IsMac(mac)
    ensures ParseAnon(mac, wire, secret, expected) == Ok(frame) <==>
            && secret != []
            && |frame.senderId| == QUEUE_ID_LEN
            && (expected == None || expected == Some(frame.senderId))
            && exists nonce, padded :: |nonce| == NONCE_LEN && Unpad(padded) == Ok(frame.payload)
                                       && wire == Wire(mac, secret, frame.senderId, nonce, padded)
  {
    if ParseAnon(mac, wire, secret, expected) == Ok(frame) {
      Rejoined(wire);
      var nonce, padded := wire[OFF_NONCE..OFF_TAG], wire[OFF_BODY..];
      assert Unpad(padded) == Ok(frame.payload);
      assert wire == Wire(mac, secret, frame.senderId, nonce, padded);
    }
    if secret != [] && |frame.senderId| == QUEUE_ID_LEN && (expected == None || expected == Some(frame.senderId)) {
      if nonce, padded :| |nonce| == NONCE_LEN && Unpad(padded) == Ok(frame.payload)
                          && wire == Wire(mac, secret, frame.senderId, nonce, padded) {
        Fields(frame.senderId, nonce, AuthTag(mac, secret, [FRAME_VERSION] + frame.senderId + padded, nonce), padded);
      }
    }
  }

  /** Every frame that can be produced opens to what was framed; production fails exactly on the
      switch, the three lengths and a body of 4 GiB or more. */
  lemma ParseFrame(mac: Mac, payload: bytes, senderId: bytes, secret: bytes, how: Sending, expected: Option<bytes>)
    requires IsMac(mac) && FillerFits(payload, how)
    requires expected == None || expected == Some(senderId)
    ensures var f := FrameAnon(mac, payload, senderId, secret, how);
            && (f.Ok? <==> (how.override == Some(true) || (how.override == None && how.environment)) && |senderId| == QUEUE_ID_LEN && secret != []
                           && |how.nonce| == NONCE_LEN && |payload| <= MAX_BODY_LEN)
            && (f.Ok? ==> ParseAnon(mac, f.value, secret, expected) == Ok(AnonFrame(senderId, payload)))
  {
    var f := FrameAnon(mac, payload, senderId, secret, how);
    UnpadPad(payload, how.ladder, how.filler);
    if f.Ok? {
      var padded := PadToBucket(payload, how.ladder, how.filler).value;
      assert Unpad(padded) == Ok(payload) && f.value == Wire(mac, secret, senderId, how.nonce, padded);
      ParsesIff(mac, f.value, secret, expected, AnonFrame(senderId, payload));
    }
  }

  /** A frame's length is that of its header and its body's size class: two payloads look alike on
      the wire exactly when no class boundary lies between them. */
  lemma FramesLookAlikeIff(mac: Mac, secret: bytes, senderId: bytes, p0: bytes, p1: bytes, h0: Sending, h1: Sending)
    requires IsMac(mac) && FillerFits(p0, h0) && FillerFits(p1, h1) && h0.ladder == h1.ladder && |p0| <= |p1|
    requires FrameAnon(mac, p0, senderId, secret, h0).Ok? && FrameAnon(mac, p1, senderId, secret, h1).Ok?
    ensures var w0, w1 := FrameAnon(mac, p0, senderId, secret, h0).value, FrameAnon(mac, p1, senderId, secret, h1).value;
            |w0| == |w1| <==>
            !exists b: nat :: IsBucket(b, h0.ladder) && LEN_PREFIX_LEN + |p0| <= b < LEN_PREFIX_LEN + |p1|
  {
    FrameLength(mac, p0, senderId, secret, h0);
    FrameLength(mac, p1, senderId, secret, h1);
    SameClassIff(LEN_PREFIX_LEN + |p0|, LEN_PREFIX_LEN + |p1|, h0.ladder);
  }

  lemma FrameLength(mac: Mac, payload: bytes, senderId: bytes, secret: bytes, how: Sending)
    requires IsMac(mac) && FillerFits(payload, how) && FrameAnon(mac, payload, senderId, secret, how).Ok?
    ensures |FrameAnon(mac, payload, senderId, secret, how).value|
            == OFF_BODY + BucketFor(LEN_PREFIX_LEN + |payload|, how.ladder)
  {
    UnpadPad(payload, how.ladder, how.filler);
  }

  /** The frame octet by octet: the magic, the version, the queue id, the nonce, the tag over nonce,
      version, id and body, and the body behind its length. */
  lemma FrameLayout(mac: Mac, payload: bytes, senderId: bytes, secret: bytes, how: Sending)
    requires IsMac(mac) && FillerFits(payload, how) && FrameAnon(mac, payload, senderId, secret, how).Ok?
    ensures var w := FrameAnon(mac, payload, senderId, secret, how).value;
            var n := |payload|;
            && |w| >= 78 + n && w[..9] == [83, 75, 67, 65, 78, 79, 78, 49, 0] && w[9] == 1
            && w[10..26] == senderId && w[26..42] == how.nonce
            && w[42..74] == mac(secret, how.nonce + ([1] + senderId + w[74..]))
            && n == w[74] as int * 0x100_0000 + w[75] as int * 0x1_0000 + w[76] as int * 0x100 + w[77] as int
            && w[78..78 + n] == payload
  {
    UnpadPad(payload, how.ladder, how.filler);
    BigEndianIs(|payload|);
    var w := FrameAnon(mac, payload, senderId, secret, how).value;
    var padded := PadToBucket(payload, how.ladder, how.filler).value;
    var tag := AuthTag(mac, secret, [FRAME_VERSION] + senderId + padded, how.nonce);
    Fields(senderId, how.nonce, tag, padded);
    assert padded[..4] == BigEndian(|payload|) && padded[4..4 + |payload|] == payload;
    assert forall i :: 0 <= i < |padded| ==> w[74 + i] == padded[i];
    assert w[78..78 + |payload|] == padded[4..4 + |payload|];
  }

  /** On the default ladder every payload of up to 4092 bytes goes out as 4170 bytes. */
  lemma SmallFramesAreOneSize(mac: Mac, payload: bytes, senderId: bytes, secret: bytes, how: Sending)
    requires IsMac(mac) && how.ladder == PAD_LADDER && |how.filler| == PAD_LADDER[0] - LEN_PREFIX_LEN - |payload|
    requires FrameAnon(mac, payload, senderId, secret, how).Ok? && |payload| <= 4092
    ensures |FrameAnon(mac, payload, senderId, secret, how).value| == 4170
  {
    FrameLength(mac, payload, senderId, secret, how);
  }

  /** The relay, holding no secret, routes on the id the recipient authenticates. */
  lemma RelayAgrees(mac: Mac, wire: bytes, secret: bytes, expected: Option<bytes>)
    requires ParseAnon(mac, wire, secret, expected).Ok?
    ensures ReadSenderId(wire) == Ok(ParseAnon(mac, wire, secret, expected).value.senderId)
  {
  }

  /** What the tag of a wire is made over, nonce first. */
  function Tagged(w: bytes): bytes
    requires |w| >= OFF_BODY
  {
    w[OFF_NONCE..OFF_TAG] + ([FRAME_VERSION] + w[OFF_SID..OFF_NONCE] + w[OFF_BODY..])
  }

  /** The tag binds everything else: two accepted wires with one tag are one wire, or show a
      collision of the MAC. Re-pointing a frame at another queue, changing its nonce, its body or
      its pad region needs another tag or a collision. */
  lemma TagNamesOneFrame(mac: Mac, secret: bytes, w0: bytes, w1: bytes)
    requires ParseAnon(mac, w0, secret, None).Ok? && ParseAnon(mac, w1, secret, None).Ok?
    requires w0[OFF_TAG..OFF_BODY] == w1[OFF_TAG..OFF_BODY]
    ensures w0 == w1 || Collide(mac, secret, Tagged(w0), Tagged(w1))
  {
    Rejoined(w0);
    Rejoined(w1);
    var s0, n0, p0 := w0[OFF_SID..OFF_NONCE], w0[OFF_NONCE..OFF_TAG], w0[OFF_BODY..];
    var s1, n1, p1 := w1[OFF_SID..OFF_NONCE], w1[OFF_NONCE..OFF_TAG], w1[OFF_BODY..];
    var m0, m1 := [FRAME_VERSION] + s0 + p0, [FRAME_VERSION] + s1 + p1;
    TagBindsIff(mac, secret, m0, n0, m1, n1);
    if Tagged(w0) == Tagged(w1) {
      assert m0[1..OFF_NONCE - OFF_SID + 1] == s0 && m0[OFF_NONCE - OFF_SID + 1..] == p0;
      assert m1[1..OFF_NONCE - OFF_SID + 1] == s1 && m1[OFF_NONCE - OFF_SID + 1..] == p1;
    }
  }

  // ----- Channels -----

  datatype Channel = Channel(relay: string, senderId: bytes, secret: bytes, recipientId: Option<bytes>) {
    function Address(): Result<string, FormatError> {
      EncodeAqid(relay, senderId)
    }

    function Seal(mac: Mac, payload: bytes, how: Sending): Result<bytes, AnonError>
      requires FillerFits(payload, how)
    {
      FrameAnon(mac, payload, senderId, secret, how)
    }

    function Open(mac: Mac, wire: bytes): Result<bytes, AnonError> {
      match ParseAnon(mac, wire, secret, Some(senderId))
      case Err(e) => Err(e)
      case Ok(frame) => Ok(frame.payload)
    }
  }

  /** The recipient's side; the queue pair is drawn outside. */
  function Create(relay: string, secret: bytes, recipientId: bytes, senderId: bytes): Result<Channel, AnonError> {
    if secret == [] then Err(BadSecret)
    else Ok(Channel(relay, senderId, secret, Some(recipientId)))
  }

  /** The sender's side. */
  function FromAddress(foreign: Foreign, aqid: string, secret: bytes): Result<Channel, AnonError> {
    if secret == [] then Err(BadSecret)
    else match DecodeAqid(foreign, aqid)
      case Err(e) => Err(BadAddress(e))
      case Ok((relay, senderId)) => Ok(Channel(relay, senderId, secret, None))
  }

  /** A channel needs a secret, and on the sender's side an address that decodes; it has the parts it
      was given. */
  lemma ChannelIff(foreign: Foreign, relay: string, secret: bytes, recipientId: bytes, senderId: bytes, aqid: string)
    ensures var made := Create(relay, secret, recipientId, senderId);
            && (made.Ok? <==> secret != [])
            && (made.Ok? ==> made.value == Channel(relay, senderId, secret, Some(recipientId)))
    ensures var joined := FromAddress(foreign, aqid, secret);
            && (joined.Ok? <==> secret != [] && DecodeAqid(foreign, aqid).Ok?)
            && (joined.Ok? ==> var (r, id) := DecodeAqid(foreign, aqid).value; joined.value == Channel(r, id, secret, None))
  {
  }

  /** A channel rebuilt from a published address and the shared secret is the creator's without
      its private id, and either side opens what the other seals. */
  lemma RebuiltChannel(mac: Mac, foreign: Foreign, relay: string, secret: bytes, recipientId: bytes, senderId: bytes,
                       payload: bytes, how: Sending)
    requires IsMac(mac) && FillerFits(payload, how)
    requires var made := Create(relay, secret, recipientId, senderId); made.Ok? && made.value.Address().Ok?
    ensures var creator := Create(relay, secret, recipientId, senderId).value;
            FromAddress(foreign, creator.Address().value, secret) == Ok(creator.(recipientId := None))
    ensures var creator := Create(relay, secret, recipientId, senderId).value;
            var sender := creator.(recipientId := None);
            && sender.Seal(mac, payload, how) == creator.Seal(mac, payload, how)
            && (sender.Seal(mac, payload, how).Ok? <==>
                how.Enabled() && |how.nonce| == NONCE_LEN && |payload| <= MAX_BODY_LEN)
            && (sender.Seal(mac, payload, how).Ok? ==>
                var wire := sender.Seal(mac, payload, how).value;
                creator.Open(mac, wire) == Ok(payload) && sender.Open(mac, wire) == Ok(payload))
  {
    DecodeEncodeAqid(foreign, relay, senderId);
    ParseFrame(mac, payload, senderId, secret, how, Some(senderId));
  }

  /** What opens on one queue opens on another exactly when that is the same queue and the tag
      also stands under the other's secret. */
  lemma OpensElsewhereIff(mac: Mac, mine: Channel, other: Channel, wire: bytes)
    requires IsMac(mac) && mine.Open(mac, wire).Ok?
    ensures var body := [FRAME_VERSION] + mine.senderId + wire[OFF_BODY..];
            && |wire| >= OFF_BODY
            && (other.Open(mac, wire).Ok? <==>
                && other.senderId == mine.senderId && other.secret != []
                && AuthTag(mac, other.secret, body, wire[OFF_NONCE..OFF_TAG])
                   == AuthTag(mac, mine.secret, body, wire[OFF_NONCE..OFF_TAG]))
            && (other.Open(mac, wire).Ok? ==> other.Open(mac, wire) == mine.Open(mac, wire))
  {
  }
}
