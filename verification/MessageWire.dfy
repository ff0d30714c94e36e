/** The two ends of a message (core.py): compress, sign and encrypt the payload, wrap it in a
    signed Envelope v1, and on the far side unwrap, decrypt, decompress. Bytes on a rail are
    modelled by what they parse to. */
module MessageWire {
  import opened Common
  import opened Messages
  import opened Text
  import opened PayloadCrypto
  import Compression

  const HEADER_MESSAGE_TYPE := "x-skcomms-message-type"
  const HEADER_URGENCY := "x-skcomms-urgency"
  const HEADER_ENCRYPTED := "x-skcomms-encrypted"
  const HEADER_COMPRESSED := "x-skcomms-compressed"
  const HEADER_PAYLOAD_SIGNATURE := "x-skcomms-payload-signature"
  const HEADER_ACK_REQUESTED := "x-skcomms-ack-requested"
  const HEADER_TTL := "x-skcomms-ttl"

  const TEXTUAL := {"text/plain", "text/markdown"}

  const FAILOVER := "failover"

  type Headers = map<string, string>

  function Get(h: Headers, key: string): Option<string> {
    if key in h then Some(h[key]) else None
  }

  function UrgencyName(u: Urgency): string {
    match u
    case Low => "low"
    case Normal => "normal"
    case High => "high"
    case Critical => "critical"
  }

  /** Anything but the four names, and no header at all, is normal. */
  function UrgencyOf(name: string): Urgency {
    if name == "low" then Low
    else if name == "high" then High
    else if name == "critical" then Critical
    else Normal
  }

  // ----- Wrap and unwrap -----

  function NonEmpty(s: Option<string>): Option<string> {
    if s == Some("") then None else s
  }

  function HeadersOf(m: Message): Headers {
    var base := map[HEADER_MESSAGE_TYPE := m.payload.content_type,
                    HEADER_URGENCY := UrgencyName(m.urgency),
                    HEADER_ACK_REQUESTED := if m.ack_requested then "1" else "0"];
    var h := if m.payload.encrypted then base[HEADER_ENCRYPTED := "1"] else base;
    var h' := if m.payload.compressed then h[HEADER_COMPRESSED := "1"] else h;
    if NonEmpty(m.payload.signature).Some? then h'[HEADER_PAYLOAD_SIGNATURE := m.payload.signature.value] else h'
  }

  /** A fresh envelope draws its own nonce and creation time. */
  datatype Draw = Draw(nonce: string, created: Option<real>)

  function Wrap(from: string, m: Message, draw: Draw): Envelope {
    Envelope(m.envelope_id, draw.nonce, from, m.recipient, draw.created,
             if m.payload.content_type == "text" then "text/plain" else m.payload.content_type,
             m.payload.content, m.thread_id, m.in_reply_to, HeadersOf(m), None)
  }

  /** envelope_v1_to_message; `parseInt` is Python's reading of a decimal. */
  function Unwrap(env: Envelope, parseInt: string -> Option<int>, now: real): Message {
    var h := env.headers;
    var named := Get(h, HEADER_MESSAGE_TYPE);
    var content_type :=
      if named.Some? && named.value != "" then named.value
      else if env.content_type in TEXTUAL then "text" else env.content_type;
    var urgency := if Get(h, HEADER_URGENCY).Some? then UrgencyOf(h[HEADER_URGENCY]) else Normal;
    var ack := if Get(h, HEADER_ACK_REQUESTED).Some? then h[HEADER_ACK_REQUESTED] == "1" else true;
    var ttl := if HEADER_TTL in h && parseInt(h[HEADER_TTL]).Some? then parseInt(h[HEADER_TTL]).value else DEFAULT_TTL;
    Message(env.id, env.from_fqid, env.to_fqid,
            Payload(env.body, content_type, Get(h, HEADER_ENCRYPTED) == Some("1"), Get(h, HEADER_COMPRESSED) == Some("1"),
                    NonEmpty(Get(h, HEADER_PAYLOAD_SIGNATURE))),
            FAILOVER, ttl, ack, env.thread_id, env.reply_to, urgency,
            if env.created.Some? then env.created.value else now, None)
  }

  /** The header map carries every payload field, the urgency and the ack flag whole. The sender's
      name, the times, the routing mode and the ttl are the envelope's or the defaults; an empty
      signature comes back as none. */
  lemma UnwrapWrap(from: string, m: Message, draw: Draw, parseInt: string -> Option<int>, now: real)
    ensures Unwrap(Wrap(from, m, draw), parseInt, now)
            == m.(sender := from, payload := m.payload.(signature := NonEmpty(m.payload.signature)),
                  mode := FAILOVER, ttl := DEFAULT_TTL, delivered_via := None,
                  created_at := if draw.created.Some? then draw.created.value else now)
  {
    HeadersAre(m);
    UrgencyNamed(m.urgency);
    hide HeadersOf, UrgencyOf, UrgencyName;
  }

  lemma HeadersAre(m: Message)
    ensures var h := HeadersOf(m);
            && Get(h, HEADER_MESSAGE_TYPE) == Some(m.payload.content_type)
            && Get(h, HEADER_URGENCY) == Some(UrgencyName(m.urgency))
            && Get(h, HEADER_ACK_REQUESTED) == Some(if m.ack_requested then "1" else "0")
            && Get(h, HEADER_ENCRYPTED) == (if m.payload.encrypted then Some("1") else None)
            && Get(h, HEADER_COMPRESSED) == (if m.payload.compressed then Some("1") else None)
            && Get(h, HEADER_PAYLOAD_SIGNATURE) == NonEmpty(m.payload.signature)
            && HEADER_TTL !in h
  {
    KeysDiffer();
  }

  lemma KeysDiffer()
    ensures |HEADER_MESSAGE_TYPE| == 22 && |HEADER_URGENCY| == 17 && |HEADER_ENCRYPTED| == 19
    ensures |HEADER_COMPRESSED| == 20 && |HEADER_PAYLOAD_SIGNATURE| == 27 && |HEADER_ACK_REQUESTED| == 23
    ensures |HEADER_TTL| == 13
  {
  }

  lemma UrgencyNamed(u: Urgency)
    ensures UrgencyOf(UrgencyName(u)) == u
  {
    assert "low"[0] == 'l' && "normal"[0] == 'n' && "high"[0] == 'h' && "critical"[0] == 'c';
  }

  /** What an envelope is read as, header by header, whoever wrote it: a missing or empty type comes
      from the envelope's own, an unknown urgency is normal, a missing ack flag asks for one, a
      missing or unreadable ttl is the default, a flag is set by "1" alone, an empty signature is
      none, and a missing creation time is the time of reading. */
  lemma UnwrapIff(env: Envelope, parseInt: string -> Option<int>, now: real)
    ensures var m, h := Unwrap(env, parseInt, now), env.headers;
            var typed := HEADER_MESSAGE_TYPE in h && h[HEADER_MESSAGE_TYPE] != "";
            && m.envelope_id == env.id && m.sender == env.from_fqid && m.recipient == env.to_fqid
            && m.payload.content == env.body && m.thread_id == env.thread_id && m.in_reply_to == env.reply_to
            && (typed ==> m.payload.content_type == h[HEADER_MESSAGE_TYPE])
            && (!typed ==> m.payload.content_type
                           == if env.content_type == "text/plain" || env.content_type == "text/markdown" then "text"
                              else env.content_type)
            && (m.urgency == Low <==> HEADER_URGENCY in h && h[HEADER_URGENCY] == "low")
            && (m.urgency == High <==> HEADER_URGENCY in h && h[HEADER_URGENCY] == "high")
            && (m.urgency == Critical <==> HEADER_URGENCY in h && h[HEADER_URGENCY] == "critical")
            && (m.ack_requested <==> HEADER_ACK_REQUESTED !in h || h[HEADER_ACK_REQUESTED] == "1")
            && (m.payload.encrypted <==> HEADER_ENCRYPTED in h && h[HEADER_ENCRYPTED] == "1")
            && (m.payload.compressed <==> HEADER_COMPRESSED in h && h[HEADER_COMPRESSED] == "1")
            && (m.payload.signature.Some? <==> HEADER_PAYLOAD_SIGNATURE in h && h[HEADER_PAYLOAD_SIGNATURE] != "")
            && (m.payload.signature.Some? ==> m.payload.signature.value == h[HEADER_PAYLOAD_SIGNATURE])
            && (HEADER_TTL in h && parseInt(h[HEADER_TTL]).Some? ==> m.ttl == parseInt(h[HEADER_TTL]).value)
            && (!(HEADER_TTL in h && parseInt(h[HEADER_TTL]).Some?) ==> m.ttl == 86400)
            && (env.created.Some? ==> m.created_at == env.created.value) && (env.created == None ==> m.created_at == now)
            && m.mode == "failover" && m.delivered_via == None
  {
    assert "low"[0] == 'l' && "high"[0] == 'h' && "critical"[0] == 'c';
  }

  /** A reader that knows none of the headers still gets the id, the text and the type: texts as
      texts, other kinds by their names. */
  lemma HeaderlessUnwrap(from: string, m: Message, draw: Draw, parseInt: string -> Option<int>, now: real)
    requires m.payload.content_type !in TEXTUAL
    ensures var got := Unwrap(Wrap(from, m, draw).(headers := map[]), parseInt, now);
            && got.envelope_id == m.envelope_id && got.payload.content == m.payload.content
            && got.payload.content_type == m.payload.content_type && got.ack_requested && got.urgency == Normal
  {
    assert "text/plain" in TEXTUAL;
  }

  // ----- The sending end -----

  /** A sending node: its local name, its fqid if it resolves one, its injected crypto engine, how
      its capauth key signs an envelope (None without a key; the signer may fail), policy and peer
      keys. */
  datatype Sender = Sender(identity: string, fqid: Option<string>, engine: Option<Engine>,
                           signer: Option<Envelope -> Option<string>>, config: Config,
                           keys: Option<map<string, string>>, hasZstd: bool)
  {
    function From(): string {
      if NonEmpty(fqid).Some? then fqid.value else identity
    }
  }

  /** What a rail carries: the canonical signed envelope, or a legacy unsigned message. */
  datatype Wire = SignedWire(signed: SignedEnvelope) | LegacyWire(message: Message)

  function Prepare(prim: Primitives, s: Sender, m: Message): Outcome<Message> {
    match Compression.CompressPayload(prim.codec, s.hasZstd, m.payload, Compression.DEFAULT_MIN_SIZE, Compression.Gzip)
    case None => Raised
    case Some(p) => ApplyOutbound(prim, s.engine, s.config, s.keys, m.(payload := p))
  }

  /** The wire form of a send; a missing or failing signer falls back to the unsigned form. */
  function Emit(prim: Primitives, s: Sender, m: Message, draw: Draw): Outcome<Wire> {
    match Prepare(prim, s, m)
    case Refused => Refused
    case Raised => Raised
    case Done(p) =>
      if s.signer == None then Done(LegacyWire(p))
      else
        var env := Wrap(s.From(), p, draw);
        match s.signer.value(env)
        case None => Done(LegacyWire(p))
        case Some(signature) => Done(SignedWire(SignedEnvelope(env, signature)))
  }

  /** A send goes out signed exactly when there is a signer and it signs, under the node's fqid when it
      has one and its local name otherwise; without that it goes out unsigned, as prepared. */
  lemma EmitIff(prim: Primitives, s: Sender, m: Message, draw: Draw)
    ensures Emit(prim, s, m, draw).Done? <==> Prepare(prim, s, m).Done?
    ensures Prepare(prim, s, m).Done? ==>
            var p := Prepare(prim, s, m).value;
            var name := if s.fqid.Some? && s.fqid.value != "" then s.fqid.value else s.identity;
            var env := Wrap(name, p, draw);
            var w := Emit(prim, s, m, draw);
            && env.from_fqid == name && env.to_fqid == p.recipient && env.id == p.envelope_id
            && env.body == p.payload.content && env.nonce == draw.nonce && env.created == draw.created
            && (w.value.SignedWire? <==> s.signer.Some? && s.signer.value(env).Some?)
            && (w.value.SignedWire? ==> w.value.signed == SignedEnvelope(env, s.signer.value(env).value))
            && (w.value.LegacyWire? ==> w.value.message == p)
  {
    hide Prepare, HeadersOf;
  }

  // ----- The receiving end -----

  datatype Receiver = Receiver(engine: Option<Engine>, hasZstd: bool, parseInt: string -> Option<int>)

  function Parse(r: Receiver, w: Wire, now: real): Message {
    match w
    case SignedWire(signed) => Unwrap(signed.envelope, r.parseInt, now)
    case LegacyWire(m) => m
  }

  /** None: decompression raised, and the poll skips the message. */
  function TakeOff(prim: Primitives, r: Receiver, w: Wire, now: real): Option<Message> {
    var m := ApplyInbound(prim, r.engine, Parse(r, w, now));
    match Compression.DecompressPayload(prim.codec, r.hasZstd, m.payload)
    case None => None
    case Some(p) => Some(m.(payload := p))
  }

  // ----- End to end -----

  /** A message as `send` makes it. */
  predicate Fresh(m: Message) {
    !m.payload.encrypted && !m.payload.compressed && m.payload.signature == None
  }

  /** What both wire forms carry of the routing and metadata. */
  predicate SameLabels(a: Message, b: Message) {
    && a.envelope_id == b.envelope_id && a.recipient == b.recipient
    && a.payload.content_type == b.payload.content_type && a.thread_id == b.thread_id
    && a.in_reply_to == b.in_reply_to && a.urgency == b.urgency && a.ack_requested == b.ack_requested
  }

  /** The sender's name a receiver sees. */
  function WireSender(s: Sender, w: Wire): string {
    if w.SignedWire? then s.From() else s.identity
  }

  /** Parsing a wire gives back the prepared payload and labels, whichever form it took. */
  lemma ParseEmit(prim: Primitives, s: Sender, m: Message, draw: Draw, r: Receiver, now: real)
    requires m.sender == s.identity && Emit(prim, s, m, draw).Done?
    ensures Prepare(prim, s, m).Done?
    ensures var p := Prepare(prim, s, m).value;
            var w := Emit(prim, s, m, draw).value;
            var q := Parse(r, w, now);
            SameLabels(q, m) && q.sender == WireSender(s, w)
            && NonEmpty(q.payload.signature) == NonEmpty(p.payload.signature)
            && q.payload == p.payload.(signature := q.payload.signature)
  {
    var p := Prepare(prim, s, m).value;
    PrepareKeepsLabels(prim, s, m);
    UnwrapWrap(s.From(), p, draw, r.parseInt, now);
  }

  lemma PrepareKeepsLabels(prim: Primitives, s: Sender, m: Message)
    requires Prepare(prim, s, m).Done?
    ensures var p := Prepare(prim, s, m).value; SameLabels(p, m) && p == m.(payload := p.payload)
  {
    var squeezed := Compression.CompressPayload(prim.codec, s.hasZstd, m.payload,
                                                Compression.DEFAULT_MIN_SIZE, Compression.Gzip);
    CompressionKeepsType(prim, s.hasZstd, m.payload);
    hide ApplyOutbound, Compression.CompressPayload;
    OutboundKeeps(prim, s.engine, s.config, s.keys, m.(payload := squeezed.value));
  }

  lemma CompressionKeepsType(prim: Primitives, here: bool, p: Payload)
    ensures var q := Compression.CompressPayload(prim.codec, here, p, Compression.DEFAULT_MIN_SIZE, Compression.Gzip);
            q.Some? ==> q.value.content_type == p.content_type
  {
  }

  /** The compressed payload of a fresh message comes back whole through gzip. */
  lemma Squeeze(prim: Primitives, here: bool, there: bool, p: Payload)
    requires prim.codec.Faithful() && !p.compressed
    ensures var q := Compression.CompressPayload(prim.codec, here, p, Compression.DEFAULT_MIN_SIZE, Compression.Gzip);
            && q.Some? && q.value == p.(content := q.value.content, compressed := q.value.compressed)
            && Compression.DecompressPayload(prim.codec, there, q.value) == Some(p)
  {
    Compression.TakenIff(prim.codec, here, p, Compression.DEFAULT_MIN_SIZE, Compression.Gzip);
    Compression.RoundTripIff(prim.codec, here, there, p, Compression.DEFAULT_MIN_SIZE, Compression.Gzip);
  }

  /** Decompression does not look at the signature. */
  lemma SignatureApart(prim: Primitives, there: bool, p: Payload, signature: Option<string>)
    ensures Compression.DecompressPayload(prim.codec, there, p.(signature := signature))
            == match Compression.DecompressPayload(prim.codec, there, p)
               case None => None
               case Some(q) => Some(q.(signature := signature))
  {
  }

  /** A ciphertext has no compression header: it passes the decompressor untouched. */
  lemma CiphertextPasses(prim: Primitives, there: bool, p: Payload)
    requires ARMOR <= p.content || PQDM_SCHEME <= p.content
    ensures Compression.DecompressPayload(prim.codec, there, p) == Some(p)
  {
    assert ARMOR[0] == '-' && PQDM_SCHEME[0] == 'p';
    assert Compression.HEADER_GZIP[0] == 'g' && Compression.HEADER_ZSTD[0] == 'z';
  }

  ghost predicate Assumptions(prim: Primitives, s: Sender, r: Receiver) {
    && prim.codec.Faithful()
    && (s.engine.Some? ==> Armors(s.engine.value))
    && (s.engine.Some? && r.engine.Some? ==> Sound(prim, s.engine.value, r.engine.value))
  }

  ghost predicate ReadableBy(prim: Primitives, s: Sender, m: Message, w: Wire, r: Receiver) {
    s.engine.Some? ==>
      Readable(prim, Protect(s.engine, s.config, s.keys, m.recipient), s.engine.value, r.engine,
               m.sender, WireSender(s, w), m.recipient)
  }

  /** Inbound processing gives the compressed payload back, or the ciphertext as it came. */
  lemma Inbound(prim: Primitives, s: Sender, m: Message, w: Wire, r: Receiver, q: Message, squeezed: Payload)
    requires Assumptions(prim, s, r) && !squeezed.encrypted
    requires var out := ApplyOutbound(prim, s.engine, s.config, s.keys, m.(payload := squeezed));
             out.Done? && q.payload == out.value.payload
    requires q.recipient == m.recipient && q.sender == WireSender(s, w)
    ensures var got := ApplyInbound(prim, r.engine, q).payload;
            && (ReadableBy(prim, s, m, w, r) ==> got == squeezed.(signature := got.signature))
            && (!ReadableBy(prim, s, m, w, r) ==>
                got == q.payload && got.encrypted && (ARMOR <= got.content || PQDM_SCHEME <= got.content))
  {
    if s.engine.Some? {
      InboundOfOutbound(prim, s.engine.value, s.config, s.keys, m.(payload := squeezed), r.engine, q);
    }
  }

  /** Outbound then inbound. Whatever was compressed, signed, encrypted, wrapped or sent unsigned,
      the receiver gets the id, recipient, type, thread, reply, urgency and ack flag of the
      message sent, and its text exactly when the message left in the clear or the receiver holds
      the key, under the names the seal was made with. Otherwise it gets the ciphertext, marked. */
  lemma EndToEnd(prim: Primitives, s: Sender, m: Message, draw: Draw, r: Receiver, now: real)
    requires Fresh(m) && m.sender == s.identity && Assumptions(prim, s, r)
    requires Emit(prim, s, m, draw).Done?
    ensures var w := Emit(prim, s, m, draw).value;
            var got := TakeOff(prim, r, w, now);
            && got.Some? && SameLabels(got.value, m) && got.value.sender == WireSender(s, w)
            && (ReadableBy(prim, s, m, w, r) <==> !got.value.payload.encrypted)
            && (ReadableBy(prim, s, m, w, r) ==>
                got.value.payload == m.payload.(signature := got.value.payload.signature))
            && (!ReadableBy(prim, s, m, w, r) ==>
                got.value.payload.content == Prepare(prim, s, m).value.payload.content)
  {
    Squeeze(prim, s.hasZstd, r.hasZstd, m.payload);
    ParseEmit(prim, s, m, draw, r, now);
    hide ApplyOutbound, ApplyInbound, Emit, Parse, Compression.CompressPayload, Compression.DecompressPayload, ReadableBy,
      Sound, Armors, Protect, WireSender;
    var w := Emit(prim, s, m, draw).value;
    var q := Parse(r, w, now);
    var squeezed := Compression.CompressPayload(prim.codec, s.hasZstd, m.payload,
                                                Compression.DEFAULT_MIN_SIZE, Compression.Gzip).value;
    var p := Prepare(prim, s, m).value;
    InboundIgnoresSignature(prim, r, q, p.payload.signature);
    InboundKeepsLabels(prim, r, q);
    Inbound(prim, s, m, w, r, q.(payload := p.payload), squeezed);
    var got := ApplyInbound(prim, r.engine, q).payload;
    if ReadableBy(prim, s, m, w, r) {
      SignatureApart(prim, r.hasZstd, squeezed, got.signature);
    } else {
      CiphertextPasses(prim, r.hasZstd, got);
    }
  }

  lemma InboundKeepsLabels(prim: Primitives, r: Receiver, q: Message)
    ensures ApplyInbound(prim, r.engine, q) == q.(payload := ApplyInbound(prim, r.engine, q).payload)
  {
  }

  lemma InboundIgnoresSignature(prim: Primitives, r: Receiver, q: Message, signature: Option<string>)
    ensures ApplyInbound(prim, r.engine, q.(payload := q.payload.(signature := signature))).payload
            == ApplyInbound(prim, r.engine, q).payload.(signature := signature)
  {
  }

  /** Compression leaves a text alone: too short, or not worth it. The last case is a text that
      happens to be its own compressed form. */
  predicate LeftAlone(c: Compression.Codec, text: string) {
    var size, squeezed := |c.utf8(text)|, c.gzip(c.utf8(text));
    || size < Compression.DEFAULT_MIN_SIZE
    || 100 * |squeezed| >= 95 * size
    || Compression.HEADER_GZIP + c.b64(squeezed) == text
  }

  lemma LeftAloneIff(prim: Primitives, here: bool, p: Payload)
    requires !p.compressed
    ensures var q := Compression.CompressPayload(prim.codec, here, p, Compression.DEFAULT_MIN_SIZE, Compression.Gzip);
            q.Some? && (q.value.content == p.content <==> LeftAlone(prim.codec, p.content))
  {
    Compression.TakenIff(prim.codec, here, p, Compression.DEFAULT_MIN_SIZE, Compression.Gzip);
  }

  /** The payload signature is made over the compressed text: on the decompressed text a receiver
      ends with, it stands exactly for a text below 256 bytes, one that compression would not
      bring below 95 percent, or one that is its own compressed form. */
  lemma SignatureStandsIff(prim: Primitives, s: Sender, m: Message, draw: Draw, r: Receiver, now: real)
    requires Fresh(m) && m.sender == s.identity && Assumptions(prim, s, r)
    requires s.engine.Some? && s.config.sign && s.engine.value.pgpAvailable
    requires forall a, b :: s.engine.value.pgp.sign(a).Some? && s.engine.value.pgp.sign(a) == s.engine.value.pgp.sign(b) ==> a == b
    requires forall a :: s.engine.value.pgp.sign(a) != Some("")
    requires Emit(prim, s, m, draw).Done? && ReadableBy(prim, s, m, Emit(prim, s, m, draw).value, r)
    ensures var got := TakeOff(prim, r, Emit(prim, s, m, draw).value, now);
            && got.Some? && got.value.payload.signature.Some?
            && (got.value.payload.signature == s.engine.value.pgp.sign(got.value.payload.content)
                <==> LeftAlone(prim.codec, m.payload.content))
  {
    LeftAloneIff(prim, s.hasZstd, m.payload);
    hide LeftAlone, ReadableBy, Sound, Armors, Protect, ApplyInbound, Compression.CompressPayload, Compression.DecompressPayload;
    var squeezed := Compression.CompressPayload(prim.codec, s.hasZstd, m.payload,
                                                Compression.DEFAULT_MIN_SIZE, Compression.Gzip).value;
    Squeeze(prim, s.hasZstd, r.hasZstd, m.payload);
    EndToEnd(prim, s, m, draw, r, now);
    ParseEmit(prim, s, m, draw, r, now);
    OutboundBy(prim, s.engine.value, s.config, s.keys, m.(payload := squeezed));
    var q := Parse(r, Emit(prim, s, m, draw).value, now);
    assert Prepare(prim, s, m).value.payload.signature == s.engine.value.pgp.sign(squeezed.content) by {
      OutboundKeepsSignature(prim, s.engine.value, s.config, s.keys, m.(payload := squeezed));
    }
    TakeOffKeepsSignature(prim, r, q);
  }

  lemma OutboundKeepsSignature(prim: Primitives, from: Engine, config: Config, keys: Option<map<string, string>>, m: Message)
    requires ApplyOutbound(prim, Some(from), config, keys, m).Done?
    ensures Signed(from, config, m.payload).Done?
    ensures ApplyOutbound(prim, Some(from), config, keys, m).value.payload.signature
            == Signed(from, config, m.payload).value.signature
  {
  }

  lemma TakeOffKeepsSignature(prim: Primitives, r: Receiver, q: Message)
    ensures ApplyInbound(prim, r.engine, q).payload.signature == q.payload.signature
    ensures forall p :: Compression.DecompressPayload(prim.codec, r.hasZstd, p).Some? ==>
              Compression.DecompressPayload(prim.codec, r.hasZstd, p).value.signature == p.signature
  {
  }

  /** A name, its fqid and its capauth uri shorten alike, so a hybrid seal survives the change of
      name on the wire exactly when the node's local name shortens to the agent of its fqid. */
  lemma ShortNames(name: string, rest: string)
    requires '@' !in name && !("capauth:" <= name)
    ensures Short(name) == name && Short(name + "@" + rest) == name && Short("capauth:" + name + "@" + rest) == name
  {
    BeforeConcat(name, '@', rest);
    BeforeAll(name, '@');
    var uri := "capauth:" + name + "@" + rest;
    assert uri[8..] == name + "@" + rest;
    SchemeIsName(name, rest);
  }

  lemma SchemeIsName(name: string, rest: string)
    ensures "capauth:" <= name + "@" + rest ==> "capauth:" <= name
  {
    var full := name + "@" + rest;
    if "capauth:" <= full {
      assert full[|name|] == '@';
      assert forall i :: 0 <= i < 8 ==> full[i] == "capauth:"[i] != '@';
      assert full[..8] == name[..8];
    }
  }
}
