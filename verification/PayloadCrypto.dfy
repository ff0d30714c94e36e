/** Payload signing, encryption and decryption (crypto.py, and the two policy steps of core.py).
    PGP and the hybrid KEM are arguments; `Sound` states what is assumed of them. */
module PayloadCrypto {
  import opened Common
  import opened Messages
  import opened Text
  import Compression

  const PQDM_SCHEME := "pqdm1:"
  const HYBRID_SUITE := "x25519-mlkem768"
  const ARMOR := "-----BEGIN PGP"

  /** A private key: `opens` says whose ciphertexts, by the public armor they were made with. */
  datatype PgpKey = PgpKey(
    sign: string -> Option<string>,
    encrypt: (string, string) -> Option<string>,
    decrypt: string -> Option<string>,
    ghost opens: string -> bool)

  datatype Bundle = Bundle(hybrid: bool, public: bytes)

  datatype HybridProvider = HybridProvider(bundle: string -> Option<Bundle>, private: Option<bytes>)

  datatype Kem = Kem(
    seal: (bytes, bytes, string, string) -> Option<bytes>,
    open: (bytes, bytes, string, string, string) -> Option<bytes>,
    ghost pair: (bytes, bytes) -> bool)

  datatype Engine = Engine(pgpAvailable: bool, pgp: PgpKey, hybrid: Option<HybridProvider>,
                           supportsHybrid: bool, fingerprint: string)

  datatype Primitives = Primitives(codec: Compression.Codec, kem: Kem)

  datatype Config = Config(sign: bool, encrypt: bool)

  /** Refused is CryptoError, which a send turns into a not-delivered report; Raised is any other
      exception, which it lets through. Nothing is routed either way. */
  datatype Outcome<+T> = Done(value: T) | Refused | Raised

  ghost predicate Armors(from: Engine) {
    forall armor, text :: from.pgp.encrypt(armor, text).Some? ==> ARMOR <= from.pgp.encrypt(armor, text).value
  }

  /** What is assumed of PGP and the KEM between one sender's engine and one receiver's. */
  ghost predicate Sound(prim: Primitives, from: Engine, to: Engine) {
    && prim.codec.Faithful()
    && (forall armor, text, x {:trigger from.pgp.encrypt(armor, text), to.pgp.decrypt(x)} ::
          from.pgp.encrypt(armor, text) == Some(x) ==>
          to.pgp.decrypt(x) == if to.pgp.opens(armor) then Some(text) else None)
    && Armors(from)
    && (forall x :: !(ARMOR <= x) ==> to.pgp.decrypt(x) == None)
    && (forall b, public, s, r, x, private, s1, r1, suite
          {:trigger prim.kem.seal(b, public, s, r), prim.kem.open(x, private, s1, r1, suite)} ::
          prim.kem.seal(b, public, s, r) == Some(x) ==>
          prim.kem.open(x, private, s1, r1, suite) ==
          if prim.kem.pair(public, private) && s1 == s && r1 == r && suite == HYBRID_SUITE then Some(b) else None)
  }

  /** The party name bound into the hybrid seal: "capauth:opus@skworld.io" is "opus". */
  function Short(identity: string): string {
    Before(if "capauth:" <= identity then identity[8..] else identity, '@')
  }

  // ----- Sending -----

  function SignPayload(e: Engine, p: Payload): Outcome<Payload> {
    if p.signature.Some? && p.signature.value != "" then Done(p)
    else if !e.pgpAvailable then Done(p)
    else match e.pgp.sign(p.content)
      case None => Refused
      case Some(signature) => Done(p.(signature := Some(signature)))
  }

  function EncryptPayload(e: Engine, p: Payload, armor: string): Outcome<Payload> {
    if p.encrypted then Done(p)
    else if !e.pgpAvailable then Done(p)
    else if Blank(armor) then Done(p)
    else match e.pgp.encrypt(armor, p.content)
      case None => Refused
      case Some(x) => Done(p.(content := x, encrypted := true))
  }

  function Sealing(sealed: string): string {
    PQDM_SCHEME + HYBRID_SUITE + ":" + sealed
  }

  function EncryptHybrid(prim: Primitives, p: Payload, public: bytes, sender: string, recipient: string): Outcome<Payload> {
    if p.encrypted then Done(p)
    else match prim.kem.seal(prim.codec.utf8(p.content), public, sender, recipient)
      case None => Raised
      case Some(x) => Done(p.(content := Sealing(prim.codec.b64(x)), encrypted := true))
  }

  /** The hybrid seal when the recipient advertises it and this build has it, else PGP. */
  function EncryptProvider(prim: Primitives, e: Engine, m: Message, armor: string): Outcome<Payload> {
    var bundle := if e.hybrid.Some? then e.hybrid.value.bundle(m.recipient) else None;
    if e.supportsHybrid && bundle.Some? && bundle.value.hybrid
    then EncryptHybrid(prim, m.payload, bundle.value.public, Short(OrElse(m.sender, e.fingerprint)), Short(m.recipient))
    else EncryptPayload(e, m.payload, armor)
  }

  /** The payload as signed, before any encryption. */
  function Signed(e: Engine, config: Config, p: Payload): Outcome<Payload> {
    if config.sign && !(p.signature.Some? && p.signature.value != "") then SignPayload(e, p) else Done(p)
  }

  function ApplyOutbound(prim: Primitives, engine: Option<Engine>, config: Config, keys: Option<map<string, string>>,
                         m: Message): Outcome<Message>
  {
    if engine == None then Done(m)
    else
      var e := engine.value;
      match Signed(e, config, m.payload)
      case Refused => Refused
      case Raised => Raised
      case Done(p) =>
        if config.encrypt && !p.encrypted && keys.Some? && m.recipient in keys.value && keys.value[m.recipient] != "" then
          match EncryptProvider(prim, e, m.(payload := p), keys.value[m.recipient])
          case Refused => Refused
          case Raised => Raised
          case Done(q) => Done(m.(payload := q))
        else Done(m.(payload := p))
  }

  /** Outbound crypto touches the text, the signature and the encrypted flag. */
  lemma OutboundKeeps(prim: Primitives, engine: Option<Engine>, config: Config, keys: Option<map<string, string>>, m: Message)
    requires ApplyOutbound(prim, engine, config, keys, m).Done?
    ensures var out := ApplyOutbound(prim, engine, config, keys, m).value;
            out == m.(payload := m.payload.(content := out.payload.content, encrypted := out.payload.encrypted,
                                            signature := out.payload.signature))
  {
    if engine.Some? && Signed(engine.value, config, m.payload).Done? {
      var p := Signed(engine.value, config, m.payload).value;
      var armor := if keys.Some? && m.recipient in keys.value then keys.value[m.recipient] else "";
      ProviderKeeps(prim, engine.value, m.(payload := p), armor);
    }
    hide EncryptProvider;
  }

  lemma ProviderKeeps(prim: Primitives, e: Engine, m: Message, armor: string)
    ensures var out := EncryptProvider(prim, e, m, armor);
            out.Done? ==>
              out.value == m.payload.(content := out.value.content, encrypted := out.value.encrypted)
  {
  }

  // ----- Receiving -----

  /** None is an exception, which the caller turns into "leave it encrypted". */
  function OpenHybrid(prim: Primitives, content: string, private: bytes, sender: string, recipient: string): Option<string>
    requires PQDM_SCHEME <= content
  {
    var rest := content[|PQDM_SCHEME|..];
    var suite := Before(rest, ':');
    match prim.codec.fromB64(if suite == rest then "" else rest[|suite| + 1..])
    case None => None
    case Some(sealed) =>
      match prim.kem.open(sealed, private, sender, recipient, suite)
      case None => None
      case Some(plain) => prim.codec.fromUtf8(plain)
  }

  function DecryptPayload(prim: Primitives, e: Engine, m: Message): Payload {
    var p := m.payload;
    if !p.encrypted then p
    else if PQDM_SCHEME <= p.content && e.hybrid.Some? && e.hybrid.value.private.Some? then
      match OpenHybrid(prim, p.content, e.hybrid.value.private.value,
                       Short(m.sender), Short(OrElse(m.recipient, e.fingerprint)))
      case None => p
      case Some(text) => p.(content := text, encrypted := false)
    else if !e.pgpAvailable then p
    else match e.pgp.decrypt(p.content)
      case None => p
      case Some(text) => p.(content := text, encrypted := false)
  }

  function ApplyInbound(prim: Primitives, engine: Option<Engine>, m: Message): Message {
    if engine == None || !m.payload.encrypted then m
    else m.(payload := DecryptPayload(prim, engine.value, m))
  }

  // ----- What leaves in the clear, and who can read the rest -----

  /** How policy and keys decide a payload leaves, before any primitive has run. */
  datatype Protection = Clear | ByPgp(armor: string) | ByHybrid(public: bytes)

  function Protect(engine: Option<Engine>, config: Config, keys: Option<map<string, string>>, recipient: string): Protection {
    if engine == None || !config.encrypt || keys == None || recipient !in keys.value || keys.value[recipient] == "" then Clear
    else
      var e := engine.value;
      var bundle := if e.hybrid.Some? then e.hybrid.value.bundle(recipient) else None;
      if e.supportsHybrid && bundle.Some? && bundle.value.hybrid then ByHybrid(bundle.value.public)
      else if e.pgpAvailable && !Blank(keys.value[recipient]) then ByPgp(keys.value[recipient])
      else Clear
  }

  /** Policy and keys in words: a payload is sealed exactly when encryption is on and the recipient has
      a key, by the hybrid seal when the recipient advertises it and this build has it, else by PGP
      when PGP is there and the key is no blank text. */
  lemma ProtectIff(engine: Option<Engine>, config: Config, keys: Option<map<string, string>>, recipient: string)
    ensures var wanted := engine.Some? && config.encrypt && keys.Some? && recipient in keys.value && keys.value[recipient] != "";
            var hybrid := wanted && engine.value.supportsHybrid && engine.value.hybrid.Some?
                          && engine.value.hybrid.value.bundle(recipient).Some?
                          && engine.value.hybrid.value.bundle(recipient).value.hybrid;
            var pgp := wanted && !hybrid && engine.value.pgpAvailable
                       && exists i :: 0 <= i < |keys.value[recipient]| && !IsSpace(keys.value[recipient][i]);
            var p := Protect(engine, config, keys, recipient);
            && (p == Clear <==> !hybrid && !pgp)
            && (hybrid ==> p == ByHybrid(engine.value.hybrid.value.bundle(recipient).value.public))
            && (pgp ==> p == ByPgp(keys.value[recipient]))
  {
  }

  /** A payload is signed exactly when signing is on, it has no signature yet and PGP is there; the
      signature is over the text as it stands, and a signer that fails stops the send. */
  lemma SignedIff(e: Engine, config: Config, p: Payload)
    ensures var signs := config.sign && (p.signature == None || p.signature == Some("")) && e.pgpAvailable;
            && (!signs ==> Signed(e, config, p) == Done(p))
            && (signs && e.pgp.sign(p.content) == None ==> Signed(e, config, p) == Refused)
            && (signs && e.pgp.sign(p.content).Some? ==>
                  Signed(e, config, p) == Done(p.(signature := e.pgp.sign(p.content))))
  {
  }

  /** A payload leaves in the clear exactly when policy says so: a primitive that fails stops the
      send, it never downgrades it. */
  lemma ClearIff(prim: Primitives, engine: Option<Engine>, config: Config, keys: Option<map<string, string>>, m: Message)
    requires !m.payload.encrypted
    ensures var out := ApplyOutbound(prim, engine, config, keys, m);
            out.Done? ==> (!out.value.payload.encrypted <==> Protect(engine, config, keys, m.recipient) == Clear)
    ensures var out := ApplyOutbound(prim, engine, config, keys, m);
            out.Done? && !out.value.payload.encrypted ==> out.value.payload.content == m.payload.content
  {
  }

  /** The keys a receiver needs for a protected payload. The seal names both parties, so the
      sender's name on the wire must shorten to the one that was sealed. */
  ghost predicate Readable(prim: Primitives, protection: Protection, from: Engine, to: Option<Engine>,
                           sealedBy: string, wireSender: string, recipient: string)
  {
    match protection
    case Clear => true
    case ByPgp(armor) => to.Some? && to.value.pgpAvailable && to.value.pgp.opens(armor)
    case ByHybrid(public) =>
      && to.Some? && to.value.hybrid.Some? && to.value.hybrid.value.private.Some?
      && prim.kem.pair(public, to.value.hybrid.value.private.value)
      && Short(wireSender) == Short(OrElse(sealedBy, from.fingerprint))
      && Short(OrElse(recipient, to.value.fingerprint)) == Short(recipient)
  }

  lemma SealingParts(sealed: string)
    ensures PQDM_SCHEME <= Sealing(sealed) && !(ARMOR <= Sealing(sealed))
    ensures Before(Sealing(sealed)[|PQDM_SCHEME|..], ':') == HYBRID_SUITE
    ensures Sealing(sealed)[|PQDM_SCHEME|..][|HYBRID_SUITE| + 1..] == sealed
  {
    var rest := Sealing(sealed)[|PQDM_SCHEME|..];
    assert rest == HYBRID_SUITE + ":" + sealed;
    BeforeConcat(HYBRID_SUITE, ':', sealed);
    assert Sealing(sealed)[0] == 'p';
  }

  lemma HybridOpensIff(prim: Primitives, from: Engine, to: Engine, p: Payload, public: bytes,
                       s: string, r: string, m: Message)
    requires Sound(prim, from, to) && !p.encrypted
    requires EncryptHybrid(prim, p, public, s, r) == Done(m.payload)
    ensures DecryptPayload(prim, to, m) ==
            if to.hybrid.Some? && to.hybrid.value.private.Some? && prim.kem.pair(public, to.hybrid.value.private.value)
               && Short(m.sender) == s && Short(OrElse(m.recipient, to.fingerprint)) == r
            then p else m.payload
  {
    var x := prim.kem.seal(prim.codec.utf8(p.content), public, s, r).value;
    var sealed := prim.codec.b64(x);
    SealingParts(sealed);
    assert prim.codec.fromB64(sealed) == Some(x);
    assert prim.codec.fromUtf8(prim.codec.utf8(p.content)) == Some(p.content);
    if to.hybrid.Some? && to.hybrid.value.private.Some? {
      var private, s1, r1 := to.hybrid.value.private.value, Short(m.sender), Short(OrElse(m.recipient, to.fingerprint));
      assert prim.kem.open(x, private, s1, r1, HYBRID_SUITE) ==
             if prim.kem.pair(public, private) && s1 == s && r1 == r then Some(prim.codec.utf8(p.content)) else None;
    }
  }

  lemma PgpOpensIff(prim: Primitives, from: Engine, to: Engine, p: Payload, armor: string, m: Message)
    requires Sound(prim, from, to) && !p.encrypted && from.pgpAvailable && !Blank(armor)
    requires EncryptPayload(from, p, armor) == Done(m.payload)
    ensures DecryptPayload(prim, to, m) == if to.pgpAvailable && to.pgp.opens(armor) then p else m.payload
  {
    assert m.payload.content[0] == ARMOR[0] == '-';
  }

  /** An outbound payload is the signed one, through the primitive its protection names. */
  lemma OutboundBy(prim: Primitives, from: Engine, config: Config, keys: Option<map<string, string>>, m: Message)
    requires !m.payload.encrypted && ApplyOutbound(prim, Some(from), config, keys, m).Done?
    ensures Signed(from, config, m.payload).Done?
    ensures var out := ApplyOutbound(prim, Some(from), config, keys, m).value.payload;
            var signed := Signed(from, config, m.payload).value;
            && signed == m.payload.(signature := signed.signature)
            && match Protect(Some(from), config, keys, m.recipient)
               case Clear => out == signed
               case ByPgp(armor) =>
                 from.pgpAvailable && !Blank(armor) && EncryptPayload(from, signed, armor) == Done(out)
               case ByHybrid(public) =>
                 EncryptHybrid(prim, signed, public, Short(OrElse(m.sender, from.fingerprint)), Short(m.recipient)) == Done(out)
  {
  }

  /** A ciphertext shows which primitive made it, and nothing else of the payload changed. */
  lemma Ciphertext(prim: Primitives, from: Engine, p: Payload, armor: string, public: bytes, s: string, t: string, q: Payload)
    requires Armors(from) && !p.encrypted
    requires (from.pgpAvailable && !Blank(armor) && EncryptPayload(from, p, armor) == Done(q))
             || EncryptHybrid(prim, p, public, s, t) == Done(q)
    ensures q == p.(content := q.content, encrypted := true)
    ensures ARMOR <= q.content || PQDM_SCHEME <= q.content
  {
    if from.pgpAvailable && !Blank(armor) && EncryptPayload(from, p, armor) == Done(q) {
      assert from.pgp.encrypt(armor, p.content).Some?;
    } else {
      SealingParts(prim.codec.b64(prim.kem.seal(prim.codec.utf8(p.content), public, s, t).value));
    }
  }

  /** What inbound processing leaves of an outbound payload: the signed payload when the receiver
      can read it, the ciphertext exactly as it came when not. */
  lemma InboundOfOutbound(prim: Primitives, from: Engine, config: Config, keys: Option<map<string, string>>,
                          m: Message, to: Option<Engine>, r: Message)
    requires !m.payload.encrypted
    requires Armors(from) && (to.Some? ==> Sound(prim, from, to.value))
    requires var out := ApplyOutbound(prim, Some(from), config, keys, m);
             out.Done? && r.payload == out.value.payload && r.recipient == m.recipient
    ensures Signed(from, config, m.payload).Done?
    ensures var signed := Signed(from, config, m.payload).value;
            var protection := Protect(Some(from), config, keys, m.recipient);
            && signed == m.payload.(signature := signed.signature)
            && (ApplyInbound(prim, to, r).payload ==
                if Readable(prim, protection, from, to, m.sender, r.sender, m.recipient) then signed else r.payload)
            && (r.payload.encrypted <==> protection != Clear)
            && (r.payload.encrypted ==> r.payload == signed.(content := r.payload.content, encrypted := true)
                                        && (ARMOR <= r.payload.content || PQDM_SCHEME <= r.payload.content))
  {
    OutboundBy(prim, from, config, keys, m);
    var signed := Signed(from, config, m.payload).value;
    match Protect(Some(from), config, keys, m.recipient)
    case Clear =>
    case ByPgp(armor) =>
      Ciphertext(prim, from, signed, armor, [], "", "", r.payload);
      if to.Some? { PgpOpensIff(prim, from, to.value, signed, armor, r); }
    case ByHybrid(public) =>
      var s, t := Short(OrElse(m.sender, from.fingerprint)), Short(m.recipient);
      Ciphertext(prim, from, signed, "", public, s, t, r.payload);
      if to.Some? { HybridOpensIff(prim, from, to.value, signed, public, s, t, r); }
  }
}
