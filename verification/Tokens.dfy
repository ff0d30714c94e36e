/** Per-contact capability tokens of consent_tokens.py. `hmac` stands for HMAC-SHA256 and
    `utf8` for the UTF-8 encoder. */
module Tokens {
  import opened Common
  import Hex

  const TOKEN_BYTES := 32

  // ----- HKDF, RFC 5869 -----

  /** Section 2.2: PRK = HMAC(salt, IKM). */
  function Extract(hmac: Mac, salt: bytes, ikm: bytes): bytes {
    hmac(salt, ikm)
  }

  /** Section 2.3: T(0) is empty, T(n) = HMAC(PRK, T(n-1) | info | n). */
  function T(hmac: Mac, prk: bytes, info: bytes, n: nat): bytes
    requires n <= 255
  {
    if n == 0 then [] else hmac(prk, T(hmac, prk, info, n - 1) + info + [n])
  }

  /** T(1) | ... | T(n). */
  function Blocks(hmac: Mac, prk: bytes, info: bytes, n: nat): bytes
    requires n <= 255
  {
    if n == 0 then [] else Blocks(hmac, prk, info, n - 1) + T(hmac, prk, info, n)
  }

  /** N = ceil(L / HashLen). */
  function Rounds(length: nat): nat {
    (length + HASH_LEN - 1) / HASH_LEN
  }

  lemma {:induction false} BlocksLength(hmac: Mac, prk: bytes, info: bytes, n: nat)
    requires IsMac(hmac) && n <= 255
    ensures |Blocks(hmac, prk, info, n)| == n * HASH_LEN
  {
    if n > 0 { BlocksLength(hmac, prk, info, n - 1); }
  }

  /** OKM: the first L octets of T(1) | ... | T(N). */
  function Okm(hmac: Mac, seed: bytes, info: bytes, length: nat): (r: bytes)
    requires IsMac(hmac) && length <= 255 * HASH_LEN
    ensures |r| == length
  {
    var prk := Extract(hmac, seq(HASH_LEN, _ => 0), seed);
    BlocksLength(hmac, prk, info, Rounds(length));
    Blocks(hmac, prk, info, Rounds(length))[..length]
  }

  datatype HkdfResult = Okay(okm: bytes) | ValueError

  /** The loop is RFC 5869 for every length its counter octet can serve, and raises beyond. */
  method HkdfSha256(hmac: Mac, seed: bytes, info: bytes, length: nat) returns (r: HkdfResult)
    requires IsMac(hmac)
    ensures length <= 255 * HASH_LEN ==> r == Okay(Okm(hmac, seed, info, length))
    ensures length > 255 * HASH_LEN ==> r == ValueError
  {
    var prk := hmac(seq(HASH_LEN, _ => 0), seed);
    var okm: bytes := [];
    var block: bytes := [];
    var counter := 1;
    while |okm| < length
      invariant 1 <= counter <= 256 && |okm| == (counter - 1) * HASH_LEN
      invariant okm == Blocks(hmac, prk, info, counter - 1) && block == T(hmac, prk, info, counter - 1)
      invariant counter > 1 ==> (counter - 2) * HASH_LEN < length
      decreases length - |okm|
    {
      if counter > 255 { return ValueError; }
      block := hmac(prk, block + info + [counter]);
      okm := okm + block;
      counter := counter + 1;
    }
    RoundsReached(length, counter - 1);
    return Okay(okm[..length]);
  }

  lemma RoundsReached(length: nat, n: nat)
    requires length <= n * HASH_LEN && (n > 0 ==> (n - 1) * HASH_LEN < length)
    ensures Rounds(length) == n
  {
  }

  /** A shorter output is a prefix of a longer one. */
  lemma OkmPrefix(hmac: Mac, seed: bytes, info: bytes, short: nat, long: nat)
    requires IsMac(hmac) && short <= long <= 255 * HASH_LEN
    ensures Okm(hmac, seed, info, short) == Okm(hmac, seed, info, long)[..short]
  {
    var prk := Extract(hmac, seq(HASH_LEN, _ => 0), seed);
    BlocksPrefix(hmac, prk, info, Rounds(short), Rounds(long));
    BlocksLength(hmac, prk, info, Rounds(short));
    BlocksLength(hmac, prk, info, Rounds(long));
  }

  lemma {:induction false} BlocksPrefix(hmac: Mac, prk: bytes, info: bytes, m: nat, n: nat)
    requires m <= n <= 255
    ensures Blocks(hmac, prk, info, m) <= Blocks(hmac, prk, info, n)
  {
    if m < n { BlocksPrefix(hmac, prk, info, m, n - 1); }
  }

  /** The output block by block: each is the MAC, under the MAC of the seed, of the block before, the
      info and its number. */
  lemma OkmChain(hmac: Mac, seed: bytes, info: bytes, n: nat)
    requires IsMac(hmac) && n < 255
    ensures var prk := hmac(seq(32, _ => 0), seed);
            var before, okm := Okm(hmac, seed, info, n * 32), Okm(hmac, seed, info, n * 32 + 32);
            && okm[..n * 32] == before
            && okm[n * 32..] == hmac(prk, (if n == 0 then [] else before[n * 32 - 32..]) + info + [n + 1])
  {
    var prk := Extract(hmac, seq(HASH_LEN, _ => 0), seed);
    assert seq(HASH_LEN, _ => 0) == seq(32, _ => 0);
    OkmIs(hmac, seed, info, n);
    OkmIs(hmac, seed, info, n + 1);
    BlocksLength(hmac, prk, info, n);
    if n > 0 { BlocksLength(hmac, prk, info, n - 1); }
  }

  lemma OkmIs(hmac: Mac, seed: bytes, info: bytes, n: nat)
    requires IsMac(hmac) && n <= 255
    ensures Okm(hmac, seed, info, n * 32) == Blocks(hmac, Extract(hmac, seq(HASH_LEN, _ => 0), seed), info, n)
  {
    BlocksLength(hmac, Extract(hmac, seq(HASH_LEN, _ => 0), seed), info, n);
    assert Rounds(n * 32) == n;
  }

  // ----- Tokens -----

  datatype Secrets = Secrets(hmac: Mac, utf8: string -> bytes, seed: bytes, prefix: bytes)

  function Derive(s: Secrets, fqid: string): string
    requires IsMac(s.hmac)
  {
    Hex.Encode(Okm(s.hmac, s.seed, s.prefix + s.utf8(fqid), TOKEN_BYTES))
  }

  predicate IsAscii(s: string) {
    forall i :: 0 <= i < |s| ==> s[i] as int < 128
  }

  /** The constant-time comparison refuses to compare text that is not ASCII. */
  datatype TokenCheck = Valid | Invalid | TypeError

  function Check(issued: set<string>, s: Secrets, fqid: string, token: string): TokenCheck
    requires IsMac(s.hmac)
  {
    if token == "" || fqid !in issued then Invalid
    else if !IsAscii(token) then TypeError
    else if token == Derive(s, fqid) then Valid
    else Invalid
  }

  class TokenStore {
    const secrets: Secrets
    var issued: set<string>

    constructor (secrets: Secrets, stored: set<string>)
      ensures this.secrets == secrets && issued == stored
    {
      this.secrets := secrets;
      issued := stored;
    }

    method Issue(fqid: string) returns (token: string)
      requires IsMac(secrets.hmac)
      modifies this
      ensures issued == old(issued) + {fqid} && token == Derive(secrets, fqid)
    {
      issued := issued + {fqid};
      var r := HkdfSha256(secrets.hmac, secrets.seed, secrets.prefix + secrets.utf8(fqid), TOKEN_BYTES);
      token := Hex.Encode(r.okm);
    }

    method Verify(fqid: string, token: string) returns (r: TokenCheck)
      requires IsMac(secrets.hmac)
      ensures r == Check(issued, secrets, fqid, token)
    {
      if token == "" { return Invalid; }
      if fqid !in issued { return Invalid; }
      var okm := HkdfSha256(secrets.hmac, secrets.seed, secrets.prefix + secrets.utf8(fqid), TOKEN_BYTES);
      if !IsAscii(token) { return TypeError; }
      return if token == Hex.Encode(okm.okm) then Valid else Invalid;
    }

    method Revoke(fqid: string) returns (removed: bool)
      modifies this
      ensures issued == old(issued) - {fqid} && (removed <==> fqid in old(issued))
    {
      removed := fqid in issued;
      issued := issued - {fqid};
    }
  }

  // ----- Histories -----

  datatype Op = Issue(fqid: string) | Revoke(fqid: string)

  function IssuedAfter(ops: seq<Op>, n: nat): set<string>
    requires n <= |ops|
  {
    if n == 0 then {}
    else match ops[n - 1]
      case Issue(f) => IssuedAfter(ops, n - 1) + {f}
      case Revoke(f) => IssuedAfter(ops, n - 1) - {f}
  }

  /** `fqid` was issued a token in the first `n` calls and not revoked since. */
  ghost predicate StandsIssued(ops: seq<Op>, n: nat, fqid: string)
    requires n <= |ops|
  {
    exists i :: 0 <= i < n && ops[i] == Issue(fqid) && forall j :: i < j < n ==> ops[j] != Revoke(fqid)
  }

  lemma {:induction false} IssuedIff(ops: seq<Op>, n: nat, fqid: string)
    requires n <= |ops|
    ensures fqid in IssuedAfter(ops, n) <==> StandsIssued(ops, n, fqid)
  {
    if n > 0 {
      IssuedIff(ops, n - 1, fqid);
      if StandsIssued(ops, n - 1, fqid) && ops[n - 1] != Revoke(fqid) {
        var m := n - 1;
        var i :| 0 <= i < m && ops[i] == Issue(fqid) && forall j :: i < j < m ==> ops[j] != Revoke(fqid);
        assert forall j :: i < j < n ==> ops[j] != Revoke(fqid);
      }
    }
  }

  /** A token is the hex text of the first block under the store's prefix and the contact's name. */
  lemma DeriveIs(s: Secrets, fqid: string)
    requires IsMac(s.hmac)
    ensures Derive(s, fqid) == Hex.Encode(s.hmac(s.hmac(seq(32, _ => 0), s.seed), s.prefix + s.utf8(fqid) + [1]))
  {
    OkmChain(s.hmac, s.seed, s.prefix + s.utf8(fqid), 0);
    assert [] + (s.prefix + s.utf8(fqid)) + [1] == s.prefix + s.utf8(fqid) + [1];
  }

  /** After any issue and revoke history, a token verifies exactly when its contact stands
      issued and the token is the derived one. */
  lemma {:induction false} VerifiesIff(s: Secrets, ops: seq<Op>, n: nat, fqid: string, token: string)
    requires IsMac(s.hmac) && n <= |ops|
    ensures Check(IssuedAfter(ops, n), s, fqid, token) == Valid <==>
            StandsIssued(ops, n, fqid) && token == Derive(s, fqid)
  {
    IssuedIff(ops, n, fqid);
    assert |Derive(s, fqid)| == 2 * TOKEN_BYTES;
  }

  /** Revoking one contact changes no other contact's check. */
  lemma RevocationIsIndependent(s: Secrets, issued: set<string>, revoked: string, fqid: string, token: string)
    requires IsMac(s.hmac) && fqid != revoked
    ensures Check(issued - {revoked}, s, fqid, token) == Check(issued, s, fqid, token)
    ensures Check(issued - {revoked}, s, revoked, token) == Invalid
  {
  }

  /** One contact's token serves another exactly when their derived keys collide. */
  lemma TokenServesOtherIff(s: Secrets, issued: set<string>, a: string, b: string)
    requires IsMac(s.hmac) && b in issued
    ensures Check(issued, s, b, Derive(s, a)) == Valid <==>
            Okm(s.hmac, s.seed, s.prefix + s.utf8(a), TOKEN_BYTES)
            == Okm(s.hmac, s.seed, s.prefix + s.utf8(b), TOKEN_BYTES)
  {
    Hex.Injective(Okm(s.hmac, s.seed, s.prefix + s.utf8(a), TOKEN_BYTES),
                 Okm(s.hmac, s.seed, s.prefix + s.utf8(b), TOKEN_BYTES));
    assert |Derive(s, a)| == 2 * TOKEN_BYTES;
  }

  /** The check raises instead of refusing exactly for non-ASCII text presented for an issued
      contact, so it does not fail closed on every malformed token. */
  lemma CheckRaisesIff(s: Secrets, issued: set<string>, fqid: string, token: string)
    requires IsMac(s.hmac)
    ensures Check(issued, s, fqid, token) == TypeError <==>
            fqid in issued && exists i :: 0 <= i < |token| && token[i] as int >= 128
  {
  }
}
