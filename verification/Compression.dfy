/** Payload compression (compression.py). UTF-8, gzip, zstd and base64 are arguments; that each
    decoder undoes its encoder is the assumption `Faithful`. */
module Compression {
  import opened Common
  import opened Messages

  const HEADER_GZIP := "gz:"
  const HEADER_ZSTD := "zstd:"
  const DEFAULT_MIN_SIZE := 256

  datatype Algorithm = Gzip | Zstd | NoAlgorithm

  datatype Codec = Codec(
    utf8: string -> bytes, fromUtf8: bytes -> Option<string>,
    gzip: bytes -> bytes, gunzip: bytes -> Option<bytes>,
    zstd: bytes -> bytes, unzstd: bytes -> Option<bytes>,
    b64: bytes -> string, fromB64: string -> Option<bytes>)
  {
    ghost predicate Faithful() {
      && (forall s :: fromUtf8(utf8(s)) == Some(s))
      && (forall b :: gunzip(gzip(b)) == Some(b))
      && (forall b :: unzstd(zstd(b)) == Some(b))
      && (forall b :: fromB64(b64(b)) == Some(b))
    }
  }

  /** zstd without its library falls back to gzip; the "none" algorithm is gzip too. */
  predicate UsesZstd(algorithm: Algorithm, hasZstd: bool) {
    algorithm == Zstd && hasZstd
  }

  function Squeezed(c: Codec, content: string, zstd: bool): bytes {
    if zstd then c.zstd(c.utf8(content)) else c.gzip(c.utf8(content))
  }

  /** None is an exception: an empty text that a size threshold of zero lets through divides by
      zero. */
  function CompressPayload(c: Codec, hasZstd: bool, p: Payload, minSize: int, algorithm: Algorithm): Option<Payload> {
    var size := |c.utf8(p.content)|;
    var zstd := UsesZstd(algorithm, hasZstd);
    var squeezed := Squeezed(c, p.content, zstd);
    if p.compressed then Some(p)
    else if size < minSize then Some(p)
    else if size == 0 then None
    else if |squeezed| as real / size as real >= 0.95 then Some(p)
    else Some(p.(content := (if zstd then HEADER_ZSTD else HEADER_GZIP) + c.b64(squeezed), compressed := true))
  }

  /** None is an exception: broken base64, a broken stream, or no zstd library. */
  function Expand(c: Codec, hasZstd: bool, content: string): Option<bytes>
    requires HEADER_ZSTD <= content || HEADER_GZIP <= content
  {
    if HEADER_ZSTD <= content then
      match c.fromB64(content[|HEADER_ZSTD|..])
      case None => None
      case Some(raw) => if hasZstd then c.unzstd(raw) else None
    else
      match c.fromB64(content[|HEADER_GZIP|..])
      case None => None
      case Some(raw) => c.gunzip(raw)
  }

  function DecompressPayload(c: Codec, hasZstd: bool, p: Payload): Option<Payload> {
    if !p.compressed then Some(p)
    else if !(HEADER_ZSTD <= p.content) && !(HEADER_GZIP <= p.content) then Some(p)
    else match Expand(c, hasZstd, p.content)
      case None => None
      case Some(raw) =>
        match c.fromUtf8(raw)
        case None => None
        case Some(text) => Some(p.(content := text, compressed := false))
  }

  /** Compression is taken exactly above the threshold and below 95 percent, and only then
      touches the payload. */
  lemma TakenIff(c: Codec, hasZstd: bool, p: Payload, minSize: int, algorithm: Algorithm)
    requires !p.compressed
    ensures var q := CompressPayload(c, hasZstd, p, minSize, algorithm);
            var size := |c.utf8(p.content)|;
            && (q == None <==> size == 0 && minSize <= 0)
            && (q.Some? && q.value.compressed <==>
                size >= minSize && size > 0
                && 100 * |Squeezed(c, p.content, UsesZstd(algorithm, hasZstd))| < 95 * size)
            && (q.Some? && !q.value.compressed ==> q.value == p)
  {
    var size := |c.utf8(p.content)|;
    var n := |Squeezed(c, p.content, UsesZstd(algorithm, hasZstd))|;
    if size > 0 { RatioIff(n, size); }
  }

  /** The ratio test without its division. */
  lemma RatioIff(n: nat, size: nat)
    requires size > 0
    ensures n as real / size as real >= 0.95 <==> 100 * n >= 95 * size
  {
    var q := n as real / size as real;
    Quotient(n as real, size as real);
    ScaledIff(0.95, q, size as real);
    assert 0.95 * size as real <= n as real <==> 95 * size <= 100 * n;
  }

  lemma Quotient(a: real, k: real)
    requires k > 0.0
    ensures a / k * k == a
  {
  }

  lemma ScaledIff(a: real, b: real, k: real)
    requires k > 0.0
    ensures a <= b <==> a * k <= b * k
  {
    if a < b { assert (b - a) * k > 0.0; }
    if b < a { assert (a - b) * k > 0.0; }
  }

  /** What was compressed decompresses to itself on every branch, except that a zstd payload
      needs the library on the far side too. */
  lemma RoundTripIff(c: Codec, here: bool, there: bool, p: Payload, minSize: int, algorithm: Algorithm)
    requires c.Faithful() && !p.compressed
    ensures var q := CompressPayload(c, here, p, minSize, algorithm);
            q.Some? ==>
              (DecompressPayload(c, there, q.value) == Some(p) <==>
               !q.value.compressed || !UsesZstd(algorithm, here) || there)
  {
    var q := CompressPayload(c, here, p, minSize, algorithm);
    if q.Some? && q.value.compressed {
      var zstd := UsesZstd(algorithm, here);
      var raw := Squeezed(c, p.content, zstd);
      var header := if zstd then HEADER_ZSTD else HEADER_GZIP;
      assert q.value.content == header + c.b64(raw);
      assert q.value.content[|header|..] == c.b64(raw);
      assert c.fromB64(c.b64(raw)) == Some(raw);
      assert q.value.content[0] == header[0];
      assert c.fromUtf8(c.utf8(p.content)) == Some(p.content);
    }
  }
}
